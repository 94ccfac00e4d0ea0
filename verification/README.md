# Verification of the sensor hub, camera and wheel drivers

Dafny models of three parts of the robot, with proofs of what they promise. Constants, branches
and error cases are those of the code.

**The inertial sensor.** `shtp.c` carries cargoes in transfers over eight channels. It cuts what is
sent, rebuilds what is received, parses advertisements into tables, and keeps a precomputed
callback for every channel. `sh2.c` uses it for one operation at a time: flash records, product
ids, commands. It also cuts batches of reports into events with 64-bit times. `i2c_interface.hpp`
rebuilds packets from 32-byte bus reads.

- `Basics.dfy`: machine integers, options, flattening.
- `Reassembly.dfy`: the transfer header, the receive machine, and its guarantees under loss and
  interleaving.
- `Fragmentation.dfy`: the transmit side, the loopback, and the 32-byte I2C write.
- `ShtpTables.dfy`, `Advertisement.dfy`: the tables, the callback lookup, the TLV parser and the
  description that it refines.
- `Shtp.dfy`: the driver instance in place, proved against the four files above.
- `Announcement.dfy`: an advertisement from the wire to the tables and its listeners.
- `I2c.dfy`: the chunked packet reader.
- `Frs.dfy`, `ProductIds.dfy`, `Commands.dfy`: flash record, product id and command exchanges as
  machines.
- `Sh2.dfy`: the operation engine in place, proved against them.
- `FlashTransfer.dfy`: a record written and read back through the engine, against a hub that keeps
  what is sent to it.
- `SensorInput.dfy`: report batches, time references and the clock.

**The camera parameters.** A request is restored, validated, and committed or reverted; auto
exposure excludes a fixed exposure time; accepted controls wait for the next frame.

- `Controls.dfy`: conversions, clamping and the validator's comparisons.
- `Exposure.dfy`: the conflict, the store, and the exclusion over whole sessions.
- `Parameters.dfy`: the handler in place, the pending controls and the frames.

**The wheels.** The encoder total survives changes of the operating mode, which give the position
register a new base. A deadman's switch stops the wheels from its own thread.

- `Odometry.dfy`: the driver's total against the true displacement.
- `Deadman.dfy`: two threads, a mutex and two flags as a state machine over atomic steps.

Each object that the code updates in place is a class whose methods are proved against functions
on values; the theorems are about these functions. A class's `Valid()` is its invariant: a caller
that only uses the methods never leaves it. The `Valid()` of `Shtp.Instance` says that every stored
callback is the one the lookup finds and that no application is listed twice. That of `Parameters.Handler` says that the tentative store is
empty between requests, that auto exposure and exposure time exclude each other, that every frame
got what was pending, and that the numbers of stored and restored exposure times add up to at most
one.

## What the proofs found

Where code and intention differ the model follows the code, and a lemma says exactly when they
agree.

- An I2C write of more than 32 bytes is cut and reported as done (`Fragmentation.BusConservesCargo`).
- Sender and receiver read the length field differently, so a cargo of several transfers looped
  back arrives as several (`Fragmentation.LoopbackDeliversEachTransfer`).
- A flash read whose last response skips words succeeds (`Frs.ReadReport`, `Frs.LastGapUnreported`).
- A call refused because an operation is active has already replaced that operation's parameters
  (`Sh2.Driver.GetFrs`, `Sh2.Driver.SetFrs`, `Sh2.Driver.GetProdIds`; `Frs.RedirectedRead` and
  `ProductIds.ClearedCollection` say what that operation then ends with).
- Time stamps wrap when their low words leave 32 bits (`SensorInput.StampExact`).
- A control array of one element does not survive its parameter (`Controls.ConversionRoundTrip`).
- A failed read during a mode change loses counts for good (`Odometry.EncoderConserved`).
- The deadman's loop can stop wheels that a later command has just set, if it had already tested
  the flags; ordinary use leads there (`Deadman.PositionKept`, `Deadman.CommandUnderCommittedStop`).

## Model

| member | source | states |
|---|---|---|
| Reassembly.HeaderRoundTrip | src/bno08x_driver/include/sh2/shtp.c:556-561 | The four header fields are read back from any transfer that starts with their encoding; the continuation bit is the top bit of the length. |
| Reassembly.WireFormat | src/bno08x_driver/include/sh2/shtp.c:556-561 | The header on the wire: the low seven bits of byte 1 count 256s, its top bit is the continuation bit, bytes 2 and 3 are channel and sequence number. |
| Reassembly.ReceiveOnBytes | src/bno08x_driver/include/sh2/shtp.c:544-637 | What the receiver does with every transfer, said of its bytes: the four rejections in the order of their tests, when it joins the assembly in progress, what it keeps, delivers and expects next. |
| Reassembly.DeliveryIsSuffix | src/bno08x_driver/include/sh2/shtp.c:544-637 | Any number of cargoes per channel, split in any way, interleaved in any way over the channels, with fewer than 256 consecutive losses per channel: anywhere in the run a delivery is a contiguous suffix of the one cargo whose last part just arrived, never a splice of two, and the unchecked copy stays inside the payload buffer. |
| Reassembly.DeliveredInOrderAtMostOnce | src/bno08x_driver/include/sh2/shtp.c:544-637 | Of two deliveries on a channel the later one belongs to a later cargo, so no cargo is delivered twice. |
| Reassembly.WholeCargoDelivered | src/bno08x_driver/include/sh2/shtp.c:583-633 | A cargo whose parts arrive back to back is delivered whole, by its last part alone, with the time of its first part, whatever was being assembled before. |
| Reassembly.WholeCargoInRun | src/bno08x_driver/include/sh2/shtp.c:583-633 | The same for a stretch anywhere inside a longer run, whatever comes before and after it. |
| Reassembly.ArrivalStep | src/bno08x_driver/include/sh2/shtp.c:583-636 | The inductive step: one arrival keeps the assembly a run of consecutive parts of one cargo that ends with the last transfer seen on its channel. |
| Reassembly.ContinuingStep | src/bno08x_driver/include/sh2/shtp.c:583-592 | A transfer that the receiver accepts as a continuation is the very next part of the same cargo: a matching 8-bit sequence number cannot come from anywhere else. |
| Reassembly.FreshStep | src/bno08x_driver/include/sh2/shtp.c:594-613 | A transfer that starts an assembly, be it a continuation or not, starts it at its own part. |
| Reassembly.OrdinalOrder | src/bno08x_driver/include/sh2/shtp.c:635-636 | The running number of a transfer on its channel orders cargoes first and parts second, and identifies the transfer. |
| Fragmentation.SendableWhen | src/bno08x_driver/include/sh2/shtp.c:289-292 | For which outMaxTransfer the transmit loop makes progress inside its staging buffer: every limit from 5 to 256, and otherwise, but for 4, only payloads that fit one transfer. |
| Fragmentation.BodiesMakeThePayload | src/bno08x_driver/include/sh2/shtp.c:287-325 | The bodies of the transfers concatenate to the payload: nothing is lost, repeated or reordered. |
| Fragmentation.FragmentHeader | src/bno08x_driver/include/sh2/shtp.c:291-301 | Transfer k carries its own length, the continuation bit exactly when it is not the first, the channel, and the first sequence number plus k mod 256. |
| Fragmentation.FragmentLengths | src/bno08x_driver/include/sh2/shtp.c:289-292 | Every transfer carries data, and none more than the capacity. |
| Fragmentation.FragmentCount | src/bno08x_driver/include/sh2/shtp.c:287-289 | The number of transfers is the length of the payload divided by the capacity, rounded up. |
| Fragmentation.TransferIs | src/bno08x_driver/include/sh2/shtp.c:287-305 | For every limit from 5 to 256, the bytes of transfer k: its own length and continuation bit, the channel, the sequence number, and the next outMaxTransfer - 4 bytes of the payload, or what is left of it. |
| Fragmentation.TransferSizes | src/bno08x_driver/include/sh2/shtp.c:289-292 | For these limits no transfer is longer than outMaxTransfer, and all but the last are exactly that long. |
| Fragmentation.TransferNumber | src/bno08x_driver/include/sh2/shtp.c:287-289 | There are as many transfers as the payload needs at outMaxTransfer - 4 bytes each. |
| Fragmentation.AnswersCounted | src/bno08x_driver/include/sh2/shtp.c:308-322 | When the HAL fails, the transfers sent are as many as it had taken before, and its error is the status. |
| Fragmentation.SentPrefix | src/bno08x_driver/include/sh2/shtp.c:308-325 | What the first k transfers carry is a prefix of the payload, and all of it exactly when they are all the transfers. |
| Fragmentation.LoopbackDeliversEachTransfer | src/bno08x_driver/include/sh2/shtp.c:291-292 | The sender counts one transfer in the length field, the receiver what is still to come: fed to the receiver, each transfer is delivered by itself; the deliveries concatenate to the payload, and there is exactly one if and only if the payload fits one transfer. |
| Fragmentation.BusyIsHarmless | src/bno08x_driver/include/sh2/shtp.c:308-314 | A HAL that is busy any number of times but never fails gets every transfer. |
| Fragmentation.TransmitNext | src/bno08x_driver/include/sh2/shtp.c:308-322 | How one answered write splits the rest of the transmission: an error ends it, success goes on with the next transfer. |
| Fragmentation.BusConservesCargo | src/bno08x_driver/include/bno08x_driver/i2c_interface.hpp:119-125 | Over I2C the hub gets the whole cargo if and only if no transfer is longer than 32 bytes; a longer one is cut silently, since the write reports success. |
| ShtpTables.LookupIs | src/bno08x_driver/include/sh2/shtp.c:223-236 | The stored callback is that of the lowest-numbered listener that has a callback, the same GUID and the same name. |
| ShtpTables.LookupNone | src/bno08x_driver/include/sh2/shtp.c:223-236 | There is none exactly when no listener with a callback has both the GUID and the name. |
| ShtpTables.LookupMeans | src/bno08x_driver/include/sh2/shtp.c:223-236 | The lookup gives a callback if and only if a listener with it has the GUID and the name, and no lower-numbered listener with a callback has both. |
| ShtpTables.AddAppMeans | src/bno08x_driver/include/sh2/shtp.c:347-367 | A GUID that is listed, or finds five entries taken, changes nothing; another is appended without a name. |
| ShtpTables.FindAppListenerMeans | src/bno08x_driver/include/sh2/shtp.c:405-419 | The advertisement listener of a GUID is the first that has the GUID and a callback. |
| ShtpTables.UnusedUnbound | src/bno08x_driver/include/sh2/shtp.c:214-217 | Skipping entries marked unused agrees with the lookup, because listener GUIDs have 16 bits. |
| ShtpTables.BlankUnbound | src/bno08x_driver/include/sh2/shtp.c:727-728 | Since empty names are refused, a channel entry that was never set finds no listener. |
| ShtpTables.SetAppNameAt | src/bno08x_driver/include/sh2/shtp.c:373-379 | The name goes to the first entry with the GUID and to no other. |
| Advertisement.DecodeEncode | src/bno08x_driver/include/sh2/shtp.c:439-443 | The cursor walk over the encoding of any TLV list finds exactly that list. |
| Advertisement.CStringOfName | src/bno08x_driver/include/sh2/shtp.c:493-500 | A terminated name is read back. |
| Advertisement.ChannelsAsDescribed | src/bno08x_driver/include/sh2/shtp.c:485-508 | For the TLVs of any list of sections every channel ends up with its last definition, newly numbered and bound to its listener; a channel that no section mentions keeps its entry. |
| Advertisement.AppsAsDescribed | src/bno08x_driver/include/sh2/shtp.c:347-381 | The application table holds the GUIDs in the order of their first appearance, and for each GUID the name its sections give it. |
| Advertisement.AppsStayDistinct | src/bno08x_driver/include/sh2/shtp.c:351-354 | A table that holds each application once still does after any list of sections. |
| Advertisement.CallsAsDescribed | src/bno08x_driver/include/sh2/shtp.c:450-452 | Each section's listener hears its TLVs in order and then one null tag; the listener of the GUID in force before (0 at the start) hears a null tag first. |
| Advertisement.AdvertisementRefinesDescription | src/bno08x_driver/include/sh2/shtp.c:421-523 | The bytes that encode any list of sections within the table limits set up exactly the described tables, each application in them once, and make exactly the described calls. |
| Advertisement.ItemApplies | src/bno08x_driver/include/sh2/shtp.c:485-508 | The one or two TLVs of an item have the effect of the item. |
| Advertisement.NumbersOnBytes | src/bno08x_driver/include/sh2/shtp.c:454-482 | Numbers in values are little-endian. |
| Advertisement.TagsMean | src/bno08x_driver/include/sh2/shtp.c:445-516 | What every tag, by its number, does to the tables and to the GUID, channel and wake flag in force; tags without a meaning do nothing. |
| Advertisement.LimitsMean | src/bno08x_driver/include/sh2/shtp.c:460-484 | The three limits that tags 2, 4 and 5 set, for given value bytes; every other tag leaves them alone. |
| Advertisement.CallsMean | src/bno08x_driver/include/sh2/shtp.c:450-518 | Who hears a TLV, and with what: the listener of the GUID in force, or, at a new GUID, first the old listener a null tag and then the new one the GUID. |
| Shtp.Instance.Cleared | src/bno08x_driver/include/sh2/shtp.c:664-676 | A cleared instance: every entry of the four tables blank, no assembly, counters at 0, and the transmit limits at 256 bytes. |
| Shtp.Instance.Open | src/bno08x_driver/include/sh2/shtp.c:674-688 | After opening, channel 0 is the command channel bound to the command listener, the driver is the first advertisement listener, every other entry is as it was and every other channel unbound, and an advertisement is expected. |
| Shtp.Instance.UpdateCallbacks | src/bno08x_driver/include/sh2/shtp.c:200-238 | Every channel's callback becomes the one that the lookup finds, and nothing else changes. |
| Shtp.Instance.CallbackIs | src/bno08x_driver/include/sh2/shtp.c:200-238 | In every valid state a channel has a callback if and only if some listener with it has the channel's GUID and name, and no lower-numbered listener with a callback has both. |
| Shtp.Instance.AddChanListener | src/bno08x_driver/include/sh2/shtp.c:241-262 | Takes the next free listener entry or fails with a full table unchanged; the callback index agrees with the lookup again. |
| Shtp.Instance.ListenChan | src/bno08x_driver/include/sh2/shtp.c:721-731 | Refuses an empty name without any change, and otherwise registers. |
| Shtp.Instance.BlankStaysUnbound | src/bno08x_driver/include/sh2/shtp.c:724-730 | In every valid state a channel without a name has no callback. |
| Shtp.Instance.AddApp | src/bno08x_driver/include/sh2/shtp.c:347-367 | A GUID is added once, and only while there is room; the table never holds one twice. |
| Shtp.Instance.SetAppName | src/bno08x_driver/include/sh2/shtp.c:369-381 | Only the first entry with the GUID gets the name; an unknown GUID changes nothing. |
| Shtp.Instance.AddChannel | src/bno08x_driver/include/sh2/shtp.c:384-403 | The entry is replaced, numbered afresh and bound; other channels stay the same. |
| Shtp.Instance.AddAdvertListener | src/bno08x_driver/include/sh2/shtp.c:181-195 | Takes the next free entry; a full table is left alone. |
| Shtp.Instance.ListenAdvert | src/bno08x_driver/include/sh2/shtp.c:734-749 | Registers, or leaves a full table alone; asks for a new advertisement when none is on its way. |
| Shtp.Instance.CallAdvertHandler | src/bno08x_driver/include/sh2/shtp.c:405-419 | Calls the first listener with the GUID that has a callback, or nobody. |
| Shtp.Instance.ProcessAdvertisement | src/bno08x_driver/include/sh2/shtp.c:421-523 | The cursor loop leaves the tables and listener calls that the decoded TLVs say, and the advertisement phase idle. |
| Shtp.Instance.ProcessTag | src/bno08x_driver/include/sh2/shtp.c:445-518 | One TLV: the calls before and after it, and its effect on the tables. |
| Shtp.Instance.UpdateLimits | src/bno08x_driver/include/sh2/shtp.c:460-484 | The three transfer limits, with the 16-bit wrap of values below 4. |
| Shtp.Instance.Invoke | src/bno08x_driver/include/sh2/shtp.c:526-542 | A payload handed to a handler; on the command channel, one that starts with 0 is parsed, and then the advertisement phase is idle. |
| Shtp.Instance.Reject | src/bno08x_driver/include/sh2/shtp.c:551-581 | Each kind of rejected transfer raises one counter; the client is told unless there was not even a header. |
| Shtp.Instance.Discard | src/bno08x_driver/include/sh2/shtp.c:583-592 | An assembly is dropped exactly when the transfer does not continue it. |
| Shtp.Instance.Gather | src/bno08x_driver/include/sh2/shtp.c:594-622 | The accepted bytes join the assembly in the buffer, which starts over when there is none. |
| Shtp.Instance.Assemble | src/bno08x_driver/include/sh2/shtp.c:605-636 | Receive state, tables and events after an accepted transfer are those of the abstract receiver. |
| Shtp.Instance.Conclude | src/bno08x_driver/include/sh2/shtp.c:624-636 | A complete assembly is delivered before the next sequence number is noted, so an advertisement may renumber the channel first. |
| Shtp.Instance.Admit | src/bno08x_driver/include/sh2/shtp.c:583-636 | The same for any transfer with a good header, with the refusal of cargoes that are too large. |
| Shtp.Instance.RxAssemble | src/bno08x_driver/include/sh2/shtp.c:544-637 | The whole receive path in place, for every transfer: receive state, tables and events are those of the abstract receiver. A delivery to a bound channel is heard by its listener with payload and time, and by nobody else unless it is an advertisement; without a listener nothing is heard. A rejected transfer raises its counter, tells the client unless there was no header, and leaves the tables alone. |
| Shtp.Instance.RxTransfer | src/bno08x_driver/include/sh2/shtp.c:544-637 | The receive path itself, against the abstract receiver. |
| Shtp.HeardMeans | src/bno08x_driver/include/sh2/shtp.c:526-542 | What the abstract receiver lets clients hear: rejections, deliveries on bound channels, nothing else. |
| Shtp.PhaseMeans | src/bno08x_driver/include/sh2/shtp.c:421-523 | The advertisement phase becomes idle exactly at a delivery to the command listener that starts with byte 0. |
| Shtp.TablesMean | src/bno08x_driver/include/sh2/shtp.c:635-636 | Any other accepted transfer changes nothing in the tables but the channel's next sequence number. |
| Shtp.AsEventsMeans | src/bno08x_driver/include/sh2/shtp.c:405-419 | The calls of an advertisement are heard in order, none left out. |
| Announcement.Receive | src/bno08x_driver/include/sh2/shtp.c:421-637 | The transfer that completes an advertisement to the command listener: the log grows by the delivery and then exactly the described calls, and the tables become the described ones. |
| Announcement.AnnouncementHeard | src/bno08x_driver/include/sh2/shtp.c:421-542 | The same of what the abstract receiver lets be heard. |
| Announcement.AnnouncementTabled | src/bno08x_driver/include/sh2/shtp.c:421-523 | The same of its tables: every channel, the GUIDs, and each GUID's name. |
| Shtp.Instance.TxProcess | src/bno08x_driver/include/sh2/shtp.c:275-328 | The transfers handed to the HAL are the fragments of the payload as far as the HAL takes them: none longer than outMaxTransfer, all but the last exactly that long, and after success as many as the payload needs at outMaxTransfer - 4 bytes each. Status, discard count and the channel's sequence number follow, the number also counting the transfer that failed. |
| Shtp.Instance.TxTransfers | src/bno08x_driver/include/sh2/shtp.c:287-325 | The transmit loop itself, against the list of fragments. |
| Shtp.Instance.SendOne | src/bno08x_driver/include/sh2/shtp.c:288-314 | One transfer under the next sequence number, offered until the HAL takes it or fails. |
| Shtp.Instance.Stage | src/bno08x_driver/include/sh2/shtp.c:294-304 | The staging buffer holds header and body. |
| Shtp.Instance.WriteStaged | src/bno08x_driver/include/sh2/shtp.c:308-314 | The retry loop ends with the first answer that is not busy. |
| Shtp.Instance.Send | src/bno08x_driver/include/sh2/shtp.c:782-799 | Bad arguments send nothing and return -2; otherwise what goes out is a prefix of the payload, and the whole of it if and only if the call succeeds. |
| Shtp.Instance.ChanNo | src/bno08x_driver/include/sh2/shtp.c:752-779 | The lowest channel that has the channel name and the GUID of the first application with the application name; 255 exactly when there is none. |
| I2c.ReadPacket | src/bno08x_driver/include/bno08x_driver/i2c_interface.hpp:73-117 | The chunk loop ends with exactly the pending packet in the buffer: one header and the whole cargo, for any size up to the buffer and any continuation bits on the wire. It returns 0 if and only if the packet does not fit or one of its bus reads failed. |
| I2c.PacketGrows | src/bno08x_driver/include/bno08x_driver/i2c_interface.hpp:96-113 | One bus read, without its repeated header, continues the packet where the buffer ends. |
| I2c.PacketBytes | src/bno08x_driver/include/bno08x_driver/i2c_interface.hpp:73-117 | The pending packet, byte by byte: header and what is still to come. |
| I2c.PacketDelivered | src/bno08x_driver/include/sh2/shtp.c:594-633 | An idle receiver delivers a rebuilt packet at once, whatever its continuation bit and sequence number. |
| I2c.ReadAndReceive | src/bno08x_driver/include/bno08x_driver/i2c_interface.hpp:73-117 | From the bus to the listener: exactly the pending cargo, once; without bus failures for every packet of up to 384 bytes and no others. |
| Frs.WriteCoverage | src/bno08x_driver/include/sh2/sh2.c:1148-1214 | For any sequence of write responses the data requests are the first k pairs of the record in order, k being the smaller of the number of prompts and the number of pairs. |
| Frs.PairCount | src/bno08x_driver/include/sh2/sh2.c:1188-1203 | The number of pairs is half the number of words, rounded up. |
| Frs.PairIs | src/bno08x_driver/include/sh2/sh2.c:1189-1203 | The words of pair k, and that the second word of an odd tail is 0. |
| Frs.WriteOnNumbers | src/bno08x_driver/include/sh2/sh2.c:1148-1214 | What each status number does to a write: 0 and 4 prompt the next pair, 3 confirms, 1, 2, 5, 6, 7, 9, 10 and 11 end it with -5, the others do nothing. |
| Frs.WriteEnds | src/bno08x_driver/include/sh2/sh2.c:1161-1211 | Over any responses a write ends with the first status that ends one, with success exactly if that is 3. |
| Frs.PairsRebuild | src/bno08x_driver/include/sh2/sh2.c:1188-1203 | Storing all the pairs at their offsets rebuilds the record, odd tail included, over any earlier contents. |
| Frs.WriteStoresRecord | src/bno08x_driver/include/sh2/sh2.c:1148-1214 | A write that is prompted often enough and confirmed ends with success and leaves the record in the hub's store. |
| Frs.WriteEndsAtConfirmation | src/bno08x_driver/include/sh2/sh2.c:1208-1211 | Such a write is active until its last response and not longer. |
| Frs.ReadReport | src/bno08x_driver/include/sh2/sh2.c:978-1009 | A read that completes reports success if and only if no response but possibly the last skipped words, because the final completion overwrites the error of a gap it notices itself; an earlier gap gives the I/O error and no words. |
| Frs.LastGapUnreported | src/bno08x_driver/include/sh2/sh2.c:980-1009 | The concrete case: the first words lost, success reported and the lost words counted. |
| Frs.ReadBack | src/bno08x_driver/include/sh2/sh2.c:951-1012 | Contiguous responses of one or two words bring the record and its length into any buffer that is large enough. |
| Frs.ReadOnNumbers | src/bno08x_driver/include/sh2/sh2.c:951-1012 | What each status number does to a read, with the words it stores: 1, 2, 4 and 8 end it with -5, 5 as empty, 3, 6 and 7 complete it. |
| Frs.RefusedRead | src/bno08x_driver/include/sh2/sh2.c:959-969 | A read that the hub refuses after any number of plain contiguous responses ends with -5 and the word count as it was. |
| Frs.RefusedStores | src/bno08x_driver/include/sh2/sh2.c:959-969 | Its buffer has the words of every response before the refusal. |
| Frs.RefusedKeeps | src/bno08x_driver/include/sh2/sh2.c:959-969 | What was stored before stays. |
| Frs.StillReading | src/bno08x_driver/include/sh2/sh2.c:951-1012 | A read without gaps is active until its last response. |
| Frs.EmptyRecordRead | src/bno08x_driver/include/sh2/sh2.c:971-975 | A deleted record reads as success with no words. |
| Frs.RedirectedRead | src/bno08x_driver/include/sh2/sh2.c:980-1009 | What a read ends with whose parameters a refused call replaced under way: its next response gives the I/O error, or, if it completes the read, a success with words it never got; only the new buffer is written. |
| Frs.FlashRoundTrip | src/bno08x_driver/include/sh2/sh2.c:931-1214 | Any record of at least one word written to the hub and read back is the same, with its length, for any prompting, any split of the read and any buffer that is large enough. |
| FlashTransfer.WriteAndReadBack | src/bno08x_driver/include/sh2/sh2.c:1956-1999 | The same through the driver's two calls, its engine and its in-place handlers, against a hub that keeps what the driver really sends: both calls return with success, the buffer has the words; the driver sends the announcement, every pair once and in order, and one read request for the same record; no other record in the hub changes. |
| FlashTransfer.RecordTaken | src/bno08x_driver/include/sh2/sh2.c:1129-1214 | The requests of a good write leave exactly the record in the hub, over anything it held. |
| FlashTransfer.WriteFinished | src/bno08x_driver/include/sh2/sh2.c:490-509 | The driver stops servicing a good write with the confirmation and not before. |
| FlashTransfer.ReadFinished | src/bno08x_driver/include/sh2/sh2.c:490-509 | Likewise for a good read. |
| ProductIds.TableIsFirstResponses | src/bno08x_driver/include/sh2/sh2.c:684-745 | For any responses: the operation ends with the fourth, or with the fifth exactly when one of the first four is an FSP200 part; the table holds the responses up to then in order, and every store is in bounds. |
| ProductIds.ClearedCollection | src/bno08x_driver/include/sh2/sh2.c:1851-1853 | A collection whose parameters a refused call cleared ends with its next response, successfully and empty. |
| ProductIds.WantedMeans | src/bno08x_driver/include/sh2/sh2.c:726-729 | Five responses are wanted exactly if one of the first four has part number 10004095, else four. |
| Sh2.Driver.SendCmd | src/bno08x_driver/include/sh2/sh2.c:1224-1247 | Commands are numbered from 0, mod 256, in the order they are issued. |
| Sh2.Driver.LateResponse | src/bno08x_driver/include/sh2/sh2.c:1282-1289 | A response to an earlier command is taken for the current one if and only if it is a multiple of 256 commands old and has the same id; so none to the previous 255 commands is. |
| Sh2.Driver.OpCompleted | src/bno08x_driver/include/sh2/sh2.c:467-476 | No operation is active and the status is recorded. |
| Sh2.Driver.GetProdIdRx | src/bno08x_driver/include/sh2/sh2.c:702-745 | The handler refines the collecting machine. |
| Sh2.Driver.GetFrsRx | src/bno08x_driver/include/sh2/sh2.c:951-1012 | The handler, which goes on after its empty and error completions, refines the read machine. |
| Sh2.Driver.StoreWords | src/bno08x_driver/include/sh2/sh2.c:987-1000 | Words are stored while the offset of the first does not exceed the word count. |
| Sh2.Driver.SetFrsRx | src/bno08x_driver/include/sh2/sh2.c:1148-1214 | The handler refines the write machine, and hands to the control channel exactly the data request that the machine says; that request's own send result does not end the operation. |
| Sh2.Driver.ReinitRx | src/bno08x_driver/include/sh2/sh2.c:1401-1415 | The handler is one step of the command machine: only a response with the current command's id and number ends it, with that response's verdict. |
| Sh2.Driver.GetProdIdStart | src/bno08x_driver/include/sh2/sh2.c:684-700 | Progress is reset, four entries are expected, one request is sent. |
| Sh2.Driver.GetFrsStart | src/bno08x_driver/include/sh2/sh2.c:931-949 | Progress is reset and the record is requested. |
| Sh2.Driver.SetFrsStart | src/bno08x_driver/include/sh2/sh2.c:1129-1146 | Progress is reset and the write is announced with its length. |
| Sh2.Driver.SendCmdStart | src/bno08x_driver/include/sh2/sh2.c:1377-1385 | The operation is over at once, with the status of the send. |
| Sh2.Driver.OpStart | src/bno08x_driver/include/sh2/sh2.c:332-348 | Refused while an operation is active, and then nothing at all changes; otherwise exactly the operation's opening request goes out, and the operation is active exactly if that succeeded. |
| Sh2.Driver.OpRx | src/bno08x_driver/include/sh2/sh2.c:350-356 | A report is one step of the active operation's machine, commands included, and makes the driver send just what the machine says; with none active nothing changes. |
| Sh2.Driver.Control | src/bno08x_driver/include/sh2/sh2.c:411-464 | The reports of a cargo are steps in order, also after the operation has ended in the middle of them; what is sent is what the steps say, in order. |
| Sh2.Driver.AwaitEnd | src/bno08x_driver/include/sh2/sh2.c:490-509 | Servicing ends with no operation active, unless the call still waits; the exchange and everything sent in it are the machine's run over the reports so far. |
| Sh2.Driver.OpProcess | src/bno08x_driver/include/sh2/sh2.c:478-510 | At most one operation at a time and none active at the end; its opening request goes out, and result and further requests are its machine's, for every kind of operation. |
| Sh2.Driver.GetFrs | src/bno08x_driver/include/sh2/sh2.c:1956-1973 | One request for the record goes out; status, word count and buffer are those of the read machine. A call refused as in progress has already overwritten the active operation's parameters: they fit its kind if and only if it is a read too, or a reinitialisation, and an active read goes on in the new buffer from offset 0. A status 1, 2, 4 or 8 after plain contiguous responses ends it with -5, the words before it in the buffer and the word count as it was. |
| Sh2.Driver.SetFrs | src/bno08x_driver/include/sh2/sh2.c:1983-1999 | The announcement and then exactly the write machine's data requests go out, and the status is that machine's, with the null and delete cases; refused calls as for reads. The first status that ends a write decides: 3 is success, 1, 2, 5, 6, 7, 9, 10 and 11 are -5. |
| Sh2.Driver.GetProdIds | src/bno08x_driver/include/sh2/sh2.c:1846-1856 | One request goes out; the call ends as soon as enough responses came, with the table of the first four or five. A refused call leaves an active collection wanting no entries. |
| Sh2.Driver.Reinitialize | src/bno08x_driver/include/sh2/sh2.c:2160-2165 | One numbered command goes out. The call waits until a response to this very command comes, and it succeeds if and only if byte r0 of the first is 0; responses to any of the previous 255 commands, however many, leave it waiting. |
| Commands.RunIsFirstAnswer | src/bno08x_driver/include/sh2/sh2.c:1401-1415 | Over any responses a command stays active until the first that carries its id and number, and keeps that one's verdict. |
| Commands.OldAnswer | src/bno08x_driver/include/sh2/sh2.c:1282-1289 | A response to an issued command is taken for the current one if and only if it is a multiple of 256 commands old and has the same id. |
| Commands.LateNeverComplete | src/bno08x_driver/include/sh2/sh2.c:1282-1289 | No run of responses to the previous 255 commands completes the current command. |
| Commands.LateMakeNoDifference | src/bno08x_driver/include/sh2/sh2.c:1282-1289 | A late response anywhere among others changes nothing. |
| Sh2.ViewRunReads | src/bno08x_driver/include/sh2/sh2.c:350-356 | A read operation is moved by the read responses alone, whatever other reports come in between. |
| Sh2.ViewRunWrites | src/bno08x_driver/include/sh2/sh2.c:350-356 | Likewise a write operation, and what it sends. |
| Sh2.ViewRunCommands | src/bno08x_driver/include/sh2/sh2.c:350-356 | Likewise a command. |
| Sh2.ViewRunIds | src/bno08x_driver/include/sh2/sh2.c:350-356 | Likewise the collecting of product ids. |
| SensorInput.SplitConcat | src/bno08x_driver/include/sh2/sh2.c:551-562 | Any concatenation of known reports is cut into just those reports, and what follows an unknown id is not looked at. |
| SensorInput.TickTracks | src/bno08x_driver/include/sh2/sh2.c:530-534 | Unwrapping follows a time that does not go back if and only if it moved on by less than 2^32. |
| SensorInput.ClockFollows | src/bno08x_driver/include/sh2/sh2.c:530-534 | Over any steady sequence of times the clock stands at the true 64-bit time after every call. |
| SensorInput.StampExact | src/bno08x_driver/include/sh2/sh2.c:536-537 | The emitted stamp is the true time plus 100 times reference and delay if and only if the low words add up within 32 bits: there is no carry or borrow. |
| SensorInput.ReferenceAgrees | src/bno08x_driver/include/sh2/sh2.c:563-573 | The 32-bit reference is minus the last base plus all signed rebases since, mod 2^32. |
| SensorInput.BatchIsFold | src/bno08x_driver/include/sh2/sh2.c:542-592 | Exactly one event for each sensor report, in order; all stamps are the ideal ones if and only if none leaves its 32-bit period. |
| SensorInput.RunIsFold | src/bno08x_driver/include/sh2/sh2.c:524-592 | The same over any run of batches, with the clock carried from one to the next. |
| SensorInput.SensorOnBytes | src/bno08x_driver/include/sh2/sh2.c:578-588 | A sensor report whose bytes 2 and 3 are 4 hi + acc and lo gives one event stamped with the true time plus 100 times the reference and 256 hi + lo, when that stays in the 32-bit period. |
| SensorInput.ReferencesOnBytes | src/bno08x_driver/include/sh2/sh2.c:563-577 | What the four bytes of a base or rebase do to the reference, with their weights; flushes and other reports leave it alone. |
| SensorInput.IdealOnBytes | src/bno08x_driver/include/sh2/sh2.c:563-588 | The ideal stamps on bytes: unwrapped reference, signed rebase, 100 microseconds a unit. |
| SensorInput.ReportLenIs | src/bno08x_driver/include/sh2/sh2.c:512-521 | The length of a report is that of the first table entry with its id, 0 without one. |
| SensorInput.Handler.GetReportLen | src/bno08x_driver/include/sh2/sh2.c:512-521 | The length of the first table entry with the id, or 0. |
| SensorInput.Handler.ToUSTimestamp | src/bno08x_driver/include/sh2/sh2.c:524-540 | The clock is ticked first and the stamp formed from the new clock. |
| SensorInput.Handler.Input | src/bno08x_driver/include/sh2/sh2.c:542-592 | The cursor loop emits the events of the batch's reports up to an unknown id, which is counted. |
| SensorInput.Handler.One | src/bno08x_driver/include/sh2/sh2.c:563-588 | A base or rebase moves the reference and nothing else; a flush is passed on; every other report ticks the clock and becomes one event, whose stamp is given in its bytes. |
| Controls.ConversionRoundTrip | src/camera_ros/src/cv_to_pv.cpp:103-141 | Converted to a parameter and back a control value is the same if and only if it is not an array of fewer than two elements. |
| Controls.SingletonLost | src/camera_ros/src/cv_to_pv.cpp:107-113 | The concrete case: a one-element array comes back as a scalar. |
| Controls.ControlsBecome | src/camera_ros/src/cv_to_pv.cpp:55-141 | The parameter that each kind of control value becomes. |
| Controls.ParametersBecome | src/camera_ros/src/pv_to_cv.cpp:31-118 | The control value that each kind of parameter becomes for each control type, or that it throws. |
| Controls.ClampArray | src/camera_ros/src/clamp.cpp:104-135 | Every element is clamped between its own bounds, or between the scalar ones. |
| Controls.ClampValue | src/camera_ros/src/clamp.cpp:155-181 | Scalars and elements end up between their bounds; a rectangle keeps an origin and far edges clamped one by one. |
| Controls.ClampedIsValid | src/camera_ros/src/clamp.cpp:310-360 | Clamping agrees with validation: the clamped value survives the way into a parameter and back and is neither less than the minimum nor greater than the maximum, under the validator's operators. |
| Controls.ClampedRectangleIsValid | src/camera_ros/src/clamp.cpp:184-198 | The rectangle case: not strictly inside the lower bound, not strictly around the upper one, also when far edges run over. |
| Controls.ClampedNumbersAreValid | src/camera_ros/src/clamp.cpp:222-300 | The scalar and array cases: no element is below or above its bound. |
| Parameters.ClampedDefaultAccepted | src/camera_ros/src/ParameterHandler.cpp:157-160 | The parameter made of a clamped default passes all the checks of a request if and only if the default is not an array of fewer than two elements. |
| Controls.EdgeOfExtent | src/camera_ros/src/clamp.cpp:85-86 | Subtracting the origin and adding it again mod 2^32 gives back the clamped far edge. |
| Controls.ExtentIsTrue | src/camera_ros/src/clamp.cpp:80-89 | When no edge runs over, the clamped extent is the true, non-negative distance to an edge between those of the bounds. |
| Controls.ClampIsNearest | src/camera_ros/src/clamp.cpp:104-145 | Clamping gives the value between the bounds that is nearest. |
| Controls.ClampedMeans | src/camera_ros/src/clamp.cpp:104-181 | Every scalar and every element becomes the nearest within its bounds. |
| Controls.RectangleClamped | src/camera_ros/src/clamp.cpp:80-89 | When no edge runs over, origin and far edges of a clamped rectangle are those of the given one, clamped. |
| Controls.ScalarsCompare | src/camera_ros/src/clamp.cpp:184-300 | The validator's less and greater written out for scalars and booleans, and for a scalar against an array. |
| Controls.ArraysCompare | src/camera_ros/src/clamp.cpp:222-300 | Likewise for arrays: some element is below, or above, its own or the common bound. |
| Controls.RectanglesCompare | src/camera_ros/src/clamp.cpp:184-198 | Likewise for rectangles whose edges do not run over: strictly inside, or strictly around. |
| Controls.IsLess | src/camera_ros/src/clamp.cpp:222-260 | True exactly when some element is below its bound, for any mix of scalars and arrays; a rectangle when it lies strictly inside. |
| Controls.IsGreater | src/camera_ros/src/clamp.cpp:262-300 | Likewise above; a rectangle when it lies strictly around. |
| Controls.AnyBelow | src/camera_ros/src/clamp.cpp:226-244 | The element loop finds whether any element is below its own or the common bound. |
| Controls.AnyAbove | src/camera_ros/src/clamp.cpp:266-284 | The element loop finds whether any element is above its own or the common bound. |
| Exposure.FindMeans | src/camera_ros/src/ParameterConflictHandler.cpp:27-41 | A name is found exactly if an entry of that name has a value, and the value found is in the list. |
| Exposure.FindIsFirst | src/camera_ros/src/ParameterConflictHandler.cpp:27-34 | The value found is that of the first entry of the name with a value. |
| Exposure.ConflictsMean | src/camera_ros/src/ParameterConflictHandler.cpp:145-160 | A request conflicts exactly if it sets a time while the switch, in it or else before it, is on. |
| Exposure.RestoredMeans | src/camera_ros/src/ParameterConflictHandler.cpp:162-186 | What a request and the store become for every state of the switch in the request. |
| Exposure.SwitchValues | src/camera_ros/src/ParameterConflictHandler.cpp:94-143 | The values that a resolved switch takes, and those that exclude each other. |
| Exposure.Merge | src/camera_ros/src/ParameterConflictHandler.cpp:64-81 | The new list followed by the old entries that no new value overrides. |
| Exposure.MergedFind | src/camera_ros/src/ParameterConflictHandler.cpp:64-81 | In the merged list a new value wins, and an old one stays where there is no new one. |
| Exposure.RequestKeepsExclusion | src/camera_ros/src/ParameterConflictHandler.cpp:145-186 | A request that passes the conflict check never leaves auto exposure on together with a set exposure time, whatever it sets, unsets or has restored. |
| Exposure.ExclusionOverRuns | src/camera_ros/src/ParameterConflictHandler.cpp:145-199 | Through any run of granted and refused requests the exclusion holds, and the stored exposure time comes back at most once. |
| Exposure.DuplicateNamesBreakExclusion | src/camera_ros/src/ParameterConflictHandler.cpp:153-157 | Why names must be distinct: a request that names the switch twice slips through. |
| Exposure.SwitchingOffBringsBack | src/camera_ros/src/ParameterConflictHandler.cpp:173-181 | A stored exposure time comes back, and leaves the store, when a request switches auto exposure off without setting a time. |
| Exposure.ResolvedNeverConflicts | src/camera_ros/src/ParameterHandler.cpp:198-207 | The request made of the resolved defaults and overrides never fails the conflict check. |
| Exposure.StepsResolve | src/camera_ros/src/ParameterConflictHandler.cpp:94-143 | The two resolutions, with the overrides put in between, give the resolved value of every control and the store that is left. |
| Exposure.ResolutionPrefers | src/camera_ros/src/ParameterConflictHandler.cpp:94-143 | Auto exposure and a time exclude each other in the resolved values; a time given as an override stands, an override that is not automatic stands, without overrides automatic exposure is preferred, and a manual override brings a displaced default time back. |
| Parameters.PendingIsAccepted | src/camera_ros/src/ParameterHandler.cpp:272-311 | The pending controls are exactly those that the accepted list sets to a value, each converted from a value of the right type inside its bounds. |
| Parameters.NumberAccepted | src/camera_ros/src/ParameterHandler.cpp:329-385 | A scalar integer is accepted exactly when it is neither under the minimum nor over the maximum. |
| Parameters.ArrayAccepted | src/camera_ros/src/ParameterHandler.cpp:329-385 | An integer array is accepted exactly when it has the control's size, if that is fixed, and every element lies within its bounds. |
| Parameters.RectangleAccepted | src/camera_ros/src/ParameterHandler.cpp:329-385 | Four numbers for a rectangle are accepted exactly when it is neither less than the minimum nor greater than the maximum. |
| Parameters.TruthAccepted | src/camera_ros/src/ParameterHandler.cpp:329-385 | A boolean is accepted exactly within its bounds. |
| Parameters.OthersRefused | src/camera_ros/src/ParameterHandler.cpp:329-385 | Values of any other type than the control's are refused. |
| Parameters.PendingUntilTaken | src/camera_ros/src/ParameterHandler.cpp:217-230 | A batch is pending exactly from its request until a frame takes it or a later accepted batch replaces it. |
| Parameters.BatchReachesOneFrame | src/camera_ros/src/ParameterHandler.cpp:217-230 | An accepted batch reaches at most one frame. |
| Parameters.FirstRequest | src/camera_ros/src/ParameterHandler.cpp:182-205 | The first request brings no stored exposure time back a second time; it unsets the time once more exactly if the switch is not off. |
| Parameters.NodeTakesResolved | src/camera_ros/src/ParameterHandler.cpp:198-207 | Taking the first request over gives the node every resolved value, the time being unset beside a switch that is not off. |
| Parameters.Handler.ResolveDefaults | src/camera_ros/src/ParameterConflictHandler.cpp:94-117 | An unset switch becomes automatic; beside an automatic switch a set time is unset and stored; every other value stays. |
| Parameters.Handler.ResolveOverrides | src/camera_ros/src/ParameterConflictHandler.cpp:119-143 | A set time turns an automatic switch to manual; a stored time comes back, and leaves the store, exactly beside a manual switch without a time; every other value stays. |
| Parameters.Handler.Resolve | src/camera_ros/src/ParameterHandler.cpp:176-196 | Every control has its override or else its default, the switch and the time their resolved values; the store keeps a displaced time exactly if it did not come back. |
| Parameters.Handler.Declare | src/camera_ros/src/ParameterHandler.cpp:176-207 | The declaration's request fails only if one of the resolved values is out of type or bounds, and then changes nothing; otherwise the node has all the resolved values, except that a time beside a switch that is neither on nor off is unset. |
| Parameters.Handler.SetResolved | src/camera_ros/src/ParameterHandler.cpp:198-207 | The first request, made of the resolved values. |
| Parameters.Handler.Restore | src/camera_ros/src/ParameterConflictHandler.cpp:162-186 | An off switch takes a stored exposure time out of the tentative store and into a request that sets none; any other value of the switch appends an unset exposure time; without the switch nothing changes. |
| Parameters.Handler.StoreCommitOrRevert | src/camera_ros/src/ParameterConflictHandler.cpp:188-199 | The tentative store is taken over or dropped, and is empty afterwards. |
| Parameters.Handler.ValidateNewParameters | src/camera_ros/src/ParameterHandler.cpp:313-395 | Accepted exactly if the list does not conflict and every set control in it has the right type, size and bounds. |
| Parameters.Handler.Check | src/camera_ros/src/ParameterHandler.cpp:337-385 | One value is accepted exactly if it has the control's type and size, can be converted, and is neither less than the minimum nor greater than the maximum. |
| Parameters.Handler.OnSetValidate | src/camera_ros/src/ParameterHandler.cpp:252-270 | The store follows the verdict. |
| Parameters.Handler.PostSetApply | src/camera_ros/src/ParameterHandler.cpp:272-311 | The pending controls become those of the list, the earlier ones being dropped. |
| Parameters.Handler.Callbacks | src/camera_ros/src/ParameterHandler.cpp:246-311 | The three callbacks of one request: a refused one leaves store, pending controls and node alone. |
| Parameters.Handler.SetParameters | src/camera_ros/src/ParameterHandler.cpp:246-311 | One transaction: atomic, exclusive, recorded; it is one step of the abstract session, and the counts of stored and restored exposure times never add up to more than one. |
| Parameters.Handler.MoveControlValues | src/camera_ros/src/ParameterHandler.cpp:217-230 | A frame gets exactly the pending controls, which override those of its request, and none are left. |
| Odometry.DriftStep | src/dynamixel_driver/src/dynamixel_servo.cpp:471-486 | Moves and reads, good or failed, keep what the next good read will report beyond the true displacement; a mode change adds what its two reads missed. |
| Odometry.StepsOnNumbers | src/dynamixel_driver/src/dynamixel_servo.cpp:376-486 | What moves, good and failed reads, and mode changes with any of their reads failing do to the total, in numbers. |
| Odometry.EncoderConserved | src/dynamixel_driver/src/dynamixel_servo.cpp:376-486 | Between two good reads, over any moves, failed reads and mode changes, the total changes by the true displacement if and only if the mode changes lost nothing on the whole. |
| Odometry.GoodChangesLoseNothing | src/dynamixel_driver/src/dynamixel_servo.cpp:376-434 | Mode changes with two good reads lose nothing, so any number of failed reads between them cancel out. |
| Odometry.FailedFirstReadLoses | src/dynamixel_driver/src/dynamixel_servo.cpp:383-430 | The failing case: a mode change whose first read fails loses the whole register for good. |
| Odometry.Servo.GetPresentPosition | src/dynamixel_driver/src/dynamixel_servo.cpp:124-137 | The register, or 0 after a failed exchange. |
| Odometry.Servo.UpdateEncoderCount | src/dynamixel_driver/src/dynamixel_servo.cpp:471-486 | A sample, or a new base, of the abstract world. |
| Odometry.Servo.GetTotalEncoderCount | src/dynamixel_driver/src/dynamixel_servo.cpp:139-142 | One sample; the total is returned. |
| Odometry.Servo.SetOperatingMode | src/dynamixel_driver/src/dynamixel_servo.cpp:376-434 | One mode change of the abstract world; over a good link it succeeds for every valid mode and loses nothing. |
| Odometry.Servo.ConfigureControlMode | src/dynamixel_driver/src/dynamixel_servo.cpp:90-111 | Nothing, or one mode change. Over a good link the servo ends up in the mode with the torque on. |
| Deadman.Serialised | src/dynamixel_driver/src/dynamixel_comms.cpp:236-311 | Under every interleaving, whenever the mutex is free the wheels are as if whole commands and whole stops had been carried out one after the other, the commands in the order issued; the two threads are never inside together. |
| Deadman.InvRun | src/dynamixel_driver/src/dynamixel_comms.cpp:236-422 | What every step of either thread keeps: who has the mutex, how far the section under it has got, and that the enable flag is that of the latest command. |
| Deadman.DeadmanStops | src/dynamixel_driver/src/dynamixel_comms.cpp:385-422 | Once a speed command has returned and none follows, after two complete wake-ups of the loop at the latest all four wheels have been told to stop and stay stopped; thirty steps of the loop are enough. |
| Deadman.StoppedBySecond | src/dynamixel_driver/src/dynamixel_comms.cpp:391-405 | The same by counting wake-ups, for a loop found anywhere in its body. |
| Deadman.WakeUpsComplete | src/dynamixel_driver/src/dynamixel_comms.cpp:391-405 | Without commands the loop is never held up: ten of its steps complete a wake-up. |
| Deadman.OneWakeUpIsNotEnough | src/dynamixel_driver/src/dynamixel_comms.cpp:393-403 | The bound is tight: one complete wake-up may only raise the switch. |
| Deadman.PositionKept | src/dynamixel_driver/src/dynamixel_comms.cpp:283-311 | After a position command has returned, the wheels keep their goals if and only if the loop had not already passed its tests; otherwise its stop overrides the command. |
| Deadman.CommandUnderCommittedStop | src/dynamixel_driver/src/dynamixel_comms.cpp:393-402 | That can happen to every command, from every initial state, by an ordinary run: a speed command, a wake-up that raises the switch, and a second one that reaches the mutex just before the command. |
| Deadman.CommittedStops | src/dynamixel_driver/src/dynamixel_comms.cpp:397-403 | A loop that has passed its tests stops all four wheels, whatever command came last. |
| Deadman.SecondWakeUpAsks | src/dynamixel_driver/src/dynamixel_comms.cpp:391-397 | After a speed command one wake-up raises the switch and the next asks for the mutex. |
| Deadman.AllSpeedLeaves | src/dynamixel_driver/src/dynamixel_comms.cpp:236-266 | A speed command for all wheels, from start to end: the speeds each wheel gets, mirrored on the right, and the flags it leaves. |
| Deadman.SideSpeedLeaves | src/dynamixel_driver/src/dynamixel_comms.cpp:268-281 | Likewise for one side; the other side's wheels keep theirs. |
| Deadman.AllPositionLeaves | src/dynamixel_driver/src/dynamixel_comms.cpp:298-349 | A position command for all wheels: the goals and a disabled switch. |
| Deadman.SidePositionLeaves | src/dynamixel_driver/src/dynamixel_comms.cpp:283-296 | Likewise for one side. |
| Deadman.DisabledWakeUp | src/dynamixel_driver/src/dynamixel_comms.cpp:391-405 | Under a disabled switch a wake-up changes nothing. |

## Left out

- Shtp.Instance.TxProcess: does not service the receive side while the HAL is busy, as the code does between two tries; a callback that sends during these retries would reuse the staging buffer and the sequence numbers.
- Shtp.Instance.WriteStaged: leaves out the same service call in its loop.
- Shtp.Instance.RxAssemble: requires that the bytes of a continuation fit behind those assembled, because the code copies them unchecked (`Reassembly.DeliveryIsSuffix` proves it for conforming senders), and that an advertisement's TLVs and names stay inside the payload and the name buffers, which the code does not check either.
- Reassembly.DeliveryIsSuffix: a conforming sender repeats the true remaining length in every continuation; the code does not compare it with its own count.
- Advertisement.AdvertisementRefinesDescription: GUIDs beyond the five table entries are excluded; the code drops their names but still binds their channels.
- Shtp.Instance.Invoke: client callbacks are recorded as events and do not call back into the driver; the version string of the SHTP section is not kept.
- `shtp_service`, `shtp_close` and the single static instance are not modelled; the I2C reader and the receiver are joined directly.
- I2c.ReadPacket: the hub repeats a header that covers what is still to come; other header contents after the first read are skipped by the code and do not matter. The device file, the soft reset and the clock are outside.
- Sh2.Driver.Control: takes the reports as records. The byte layout of the packed structures, the cutting of a control cargo by the report length table, and the feature and reset events that the same loop raises are not modelled.
- Sh2.Driver.GetFrs: requires every stored word to be inside the caller's buffer; the code checks this only in part, by comparing the offset of the first word with the word count.
- Sh2.Driver.GetProdIds: requires a table; with a null table the code dereferences it.
- Sh2.Driver.AwaitEnd: the polling loop is given the rounds that it will see; when they run out it reports that the call still waits. None of the modelled operations has a timeout.
- The other SH-2 operations (sensor configuration, metadata, errors, counts, calibration, tare) follow the same pattern with less state.
- SensorInput.Handler.Input: requires known reports not to reach past the cargo and lengths that leave room for the fields read and for the event copy; the code checks neither. Signed overflow of the product in the stamp is taken to wrap. A flush report is recorded instead of being handed to the operation in progress.
- Controls.ClampedIsValid: covers 32- and 64-bit integers, arrays of at least two of them, and rectangles with ordered bounds. Floats, strings, bytes, unsigned numbers, sizes and points are not modelled; booleans are not clamped by the code.
- Exposure.RequestKeepsExclusion: names in a request are distinct (`Exposure.DuplicateNamesBreakExclusion` shows why), and the node takes over the list as handed on by the first callback. How the node itself checks types and bounds, undeclares unset parameters and declares them again is outside.
- Parameters.Handler.Declare: the camera has both the auto exposure switch and the exposure time; an override of the switch with a value of another type makes the code throw and is excluded. The conversion of each control's default, the parameter descriptors and the skipped controls are not modelled.
- Parameters.Handler.MoveControlValues: the merged-from list is taken as cleared, and the lock around the pending controls as making each method atomic. The variant for libraries without the three callbacks is not modelled.
- Odometry.EncoderConserved: the wheel does not move between the two reads of a mode change, counts do not overflow 32 bits, and a write that reports failure had no effect. The first read, against an uninitialised count, only sets the base.
- Deadman.DeadmanStops: one thread issues commands, as the single-threaded executor does, and what counts is what a wheel was last told; writes that fail on the bus, the conversion of speeds and angles, the reads and mode changes inside a command, and the time that the loop sleeps are not modelled.
- Deadman.PositionKept: nothing is claimed about a spinning wheel under a disabled switch, since a one-sided position command disables the switch for both sides.
- The HAL, the buses, clocks and the hub are scripts of answers; logging, publishers, memory mapping, image handling, the other nodes and the Python tools are not part of this model.
