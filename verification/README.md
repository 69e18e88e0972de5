# Verified model of the PDI stack's hard core

The PDI stack is a C++ framework that gives one interface to ESP8266, ESP32 and Arduino devices. This
project models the four parts of it that carry real algorithms and protocols, and proves what they promise,
for all inputs, all runs and all interleavings.

**Receiving and sending over lwIP.** Received data stays in the chain of reference-counted pbufs that lwIP
delivered, with an offset into the first one. Callbacks append at the tail while a reader takes from the
head, between critical sections, and the TCP window opens again only as bytes are taken.

- `Pbufs.dfy`, `RxQueue.dfy`: pbuf cells, the walks of `pbuf_free` and `pbuf_cat`, and the queue with each
  critical section as a method. A ledger says which cells are in the chain, which are detached and not yet
  released, and how many bytes of the peer's stream have arrived and been taken.
- `Delimited.dfy`, `TcpReceive.dfy`: the TCP client. A schedule of callbacks, about which nothing is known, is
  run between any two accesses to the state that callbacks share, and between any two calls, batch by batch, so
  that each contract holds for every interleaving; where a contract needs that no error comes, it says so of the
  schedule.
- `TlsReceive.dfy`: the transport side of the BearSSL client. `PeekRead.dfy`: the look-ahead byte of the
  mbedTLS client.
- `TcpWrite.dfy`: `write`, with every answer of lwIP arbitrary. `Dns.dfy`: the name lookup of `connect`.

**The pending-client slot of the servers.** `PendingSlot.dfy` is the protocol as a state machine over servers,
connections and clients; `Server.dfy` is the server object, each method proved to make one step of that
machine, where `begin`, `close` and `accept` are one step each: the source has no critical section there, and is
taken to run them without a callback in the middle. `EndToEnd.dfy` shows that a call of the TCP client, with whatever lwIP does during it, is a run of the
same machine, so that its guarantees hold for the code on both sides of `accept()`.

**Searching files.** `FileSearch.dfy` (`readFile` and `__strstr`), `FindInFile.dfy` (`findInFile`) and `Lines.dfy`
(the line and offset lookups, the line index, reading a line).

**Certificates.** `Heaps.dfy` (a C heap in which any allocation may fail), `CertLoader.dfy` (the two passes over
a PEM file, RFC 7468), `TrustAnchors.dfy`, and `San.dfy` (section 4.2.1.6 of RFC 5280). `Micros.dfy` is the wrap
tracking of the Arduino Uno's clock. `Options.dfy` is shared by all.

lwIP, the TLS libraries and LittleFS are contracts: lwIP delivers a stream in order, in non-empty pbufs, and
never beyond the window it has advertised (section 3.8.6 of RFC 9293, 16 bits wide by section 3.1); a receive
callback that answers `ERR_MEM` gets the same data again; `pbuf_free` counts down and walks on at zero; a file
read returns whole chunks. Clocks, allocation failures, the X.509 decoder, TLS records and the answers of lwIP
are parameters.

## What does not hold

Where the code does less than it promises, the exact condition is proved. For all but `serviceRx` there is a
member with a concrete example.

- `read` copies through a null pointer, and `readStringUntil` scans a freed buffer, if and only if an error
  callback runs between measuring the head and using it (`TcpReceive.TcpClient.ReadRound` and `ScanRound`; examples
  `TcpReceive.ErrorInsideRead`, `ErrorInsideScan`). `available()` has the same gap (`ErrorInsideAvailable`).
- After taking bytes the clients test `m_pcb` and then call `tcp_recved` or `tcp_output` with it, outside any
  section. The call gets a pcb that is gone if and only if the error or close callback that takes it away runs just
  between the two (`TcpReceive.TcpClient.Report`, `ReadRound`, `Flush`, `TlsReceive.TlsClient.ServiceRx`, `Close`;
  examples `TcpReceive.CloseInsideRead`, `TlsReceive.ErrorInsideClose`).
- `disconnect()` and the TLS `close()` clear `m_pcb` in a section and call lwIP with the pcb after it. These calls
  get a freed pcb if and only if an error callback runs in between (`TcpReceive.TcpClient.DisconnectByTask`, `Close`,
  `TlsReceive.TlsClient.GiveUpPcb`; examples `TcpReceive.ErrorInsideClose`, `TlsReceive.ErrorAfterSection`). Data that
  arrives there is still stored, and still released.
- `available()` is off by 2^16 if and only if the bytes held and the bytes already taken from the head buffer
  reach 2^16 together (`TcpReceive.TcpClient.Available`; example `RxQueues.WrappedLength`). Exactly then the byte loop
  of the base class returns nothing, and `readStringUntil` still works.
- `serviceRx` never reports to lwIP the whole multiple of 2^16 of what one call feeds
  (`TlsReceive.TlsClient.ServiceRx`). This needs a window of 2^16 or more; with the 16-bit window field it cannot
  happen, and the same contract says so.
- A live connection ends up with no owner in exactly the cases of `PendingSlot.LetsGo`: the TCP server's
  `accept()` without memory, and three places where the result of `tcp_close` is not looked at
  (`PendingSlot.OrphanedExactly`; example `PendingSlot.OrphanExample`).
- `write` keeps the flag "more follows" once an offer has been cut to the free send buffer. So the last segment
  of fully sent data is pushed if and only if nothing was unacknowledged and no offer was cut
  (`TcpWrite.Sender.Write`; example `TcpWrite.SplitWrite`).
- The backward `findInFile` ignores a maximum that is smaller than the step, because the division gives 0: what it
  keeps goes beyond the maximum if and only if the maximum is below the step and there are at least as many matches
  as the step (`Finding.BackwardMaximum`; example `Finding.MaximumIgnored`).
- The line index is empty if and only if no newline follows the line it starts from, even if there is text
  (`Lines.IndexEmpty`; example `Lines.IndexMissesLine`), and it is one longer than the maximum asked for if and only
  if there are more lines than that (`Lines.IndexMaximum`; example `Lines.IndexOneMore`).
- The certificate loader writes past its block if and only if the file, read a second time, hands the sink more
  than was counted; a file that has not changed never does (`CertLoader.LoadCertChain`, `CertLoader.Unchanged`;
  example `CertLoader.GrownFile`).
- `ensureServerCert` reports success with a key that does not belong to the certificate if and only if it keeps
  a pair that did not match before (`San.CertStore.EnsureServerCert`; example `San.MismatchedPair`).
- `micros_now` goes back if and only if its 32-bit wrap counter wraps (`Micros.MicrosClock.MicrosNow`; example
  `Micros.GoesBack`).

## Model

| member | source | states |
|---|---|---|
| RxQueues.HeadSound | devices/esp8266/TcpClientInterface.cpp:509-511 | the head pointer is null iff nothing is held; the head block is the next part of the stream, and its 16-bit total length is bytes held plus offset, modulo 2^16 |
| RxQueues.AppendSound | devices/esp8266/TcpClientInterface.cpp:552-561 | appending a delivered chain keeps every cell owned once, and the content becomes the old one followed by the delivered bytes |
| RxQueues.SkipSound | devices/esp8266/TcpClientInterface.cpp:397-402 | moving the offset inside the head takes exactly those bytes |
| RxQueues.PopSound | devices/esp8266/TcpClientInterface.cpp:403-414 | detaching an emptied head gives the new head a second reference and loses no byte |
| RxQueues.ReleaseSound | devices/esp8266/TcpClientInterface.cpp:418-422 | releasing a detached head frees it exactly once and leaves every remaining count at 1, whatever was appended or dropped since the section |
| RxQueues.DropSound | devices/esp8266/TcpClientInterface.cpp:570-593 | dropping the chain from a callback is safe even while a detached head still refers to it |
| RxQueues.DetachSound | devices/esp8266/TcpClientInterface.cpp:762-777 | detaching the whole chain keeps its cells owned until released |
| RxQueues.WrappedLength | devices/esp8266/TcpClientInterface.cpp:509-511 | a queue with 65535 bytes held whose 16-bit length is 0 |
| RxQueues.RxQueue.Append | devices/esp8266/TcpClientInterface.cpp:552-561 | the section of `onReceive`: bytes are added behind those held and the head stays in place |
| RxQueues.RxQueue.Take | devices/esp8266/TcpClientInterface.cpp:391-416 | the section of `consumeRxBuffer`: at most `size` bytes leave the head, some if any are held, and an emptied buffer is handed out once |
| RxQueues.RxQueue.PopHead | devices/esp8266/TlsClientInterface.cpp:276-315 | the emptied head is detached and the next buffer becomes the head with offset 0 |
| RxQueues.RxQueue.Release | devices/esp8266/TcpClientInterface.cpp:418-422 | the detached buffer is freed and the head block is untouched |
| RxQueues.RxQueue.Detach | devices/esp8266/TcpClientInterface.cpp:762-777 | the chain leaves the queue whole, and the noted length equals the bytes held modulo 2^16 |
| RxQueues.RxQueue.Drop | devices/esp8266/TcpClientInterface.cpp:570-593 | the error path frees the chain without touching what a reader has detached |
| RxQueues.RxQueue.TotLen | devices/esp8266/TcpClientInterface.cpp:509-511 | the length field of the head is the bytes held and those taken from the head, modulo 2^16 |
| Delimited.ByteLoopMeaning | src/utility/iIOInterface.h:341-367 | the byte loop uses the bytes up to the first delimiter or the limit, whichever comes first, or all of them, and appends them less a delimiter that is not kept |
| Delimited.Find | devices/esp8266/TcpClientInterface.cpp:471-477 | the first delimiter of a block, or its length |
| Delimited.BlockStep | devices/esp8266/TcpClientInterface.cpp:440-504 | the byte loop over one more block is the loop so far, the block's text up to the delimiter, and the delimiter if it is kept |
| Delimited.ProgressStep | devices/esp8266/TcpClientInterface.cpp:440-504 | the scan's state stays the byte loop's state after every block |
| Delimited.StopsAlike | src/utility/iIOInterface.h:341-367 | once the byte loop has stopped, later bytes do not change it |
| TcpReceive.TcpClient.constructor | devices/esp8266/TcpClientInterface.cpp:42-59 | a client for an accepted pcb holds nothing and the whole window is open |
| TcpReceive.TcpClient.OnReceive | devices/esp8266/TcpClientInterface.cpp:535-565 | delivered bytes move from the window to the chain, behind those held |
| TcpReceive.TcpClient.Disconnect | devices/esp8266/TcpClientInterface.cpp:168-193 | as the callback for the peer's close runs it: the pcb is given up and everything held stays readable |
| TcpReceive.TcpClient.DisconnectByTask | devices/esp8266/TcpClientInterface.cpp:168-193 | as a task runs it: what is held stays, exactly what the callbacks bring before they are off is stored behind it, and lwIP is called with a freed pcb iff an error comes between the section and the calls |
| TcpReceive.TcpClient.LateBatch | devices/esp8266/TcpClientInterface.cpp:535-593 | callbacks on a pcb that was given up: data is stored in order, exactly as much as they bring, an error drops nothing and frees the pcb |
| TcpReceive.TcpClient.OnError | devices/esp8266/TcpClientInterface.cpp:570-593 | only with a pcb is the chain dropped, once, and detached cells stay safe |
| TcpReceive.TcpClient.Callback | devices/esp8266/TcpClientInterface.cpp:535-593 | any callback keeps the invariant; without an error the head block and the read position do not move |
| TcpReceive.TcpClient.Preempt | devices/esp8266/TcpClientInterface.cpp:385-435 | any batch of callbacks keeps the invariant; what arrives with it, whether it drops bytes and whether it takes the pcb away is exactly what its events say, and no byte is lost when no error comes before the close |
| TcpReceive.TcpClient.Report | devices/esp8266/TcpClientInterface.cpp:432-434 | the bytes taken are reported; the call gets a pcb that is gone iff a batch that takes it away runs between test and call |
| TcpReceive.TcpClient.ConsumeRxBuffer | devices/esp8266/TcpClientInterface.cpp:385-435 | under any interference: what was held is taken up to `size`, and while the pcb lives open window plus bytes held is the full window again; for a size within the head, the report goes astray iff the pcb is taken away in the third batch |
| TcpReceive.TcpClient.TakeUsed | devices/esp8266/TcpClientInterface.cpp:373-376 | the bytes of a block that was used are taken, all of them and no others, with the exact condition for a stale report |
| TcpReceive.TcpClient.ReadRound | devices/esp8266/TcpClientInterface.cpp:356-376 | the copied block is the next part of the stream and is taken; the null-pointer copy happens iff an error callback runs between measuring and copying, a stale report iff the pcb goes in the fifth batch |
| TcpReceive.TcpClient.Read | devices/esp8266/TcpClientInterface.cpp:344-380 | the buffer holds the next bytes of the stream, at least what was held or the size asked for, and zeros behind; bytes are lost, or a copy fails, only if an error callback comes before the close; an empty queue or size gives the state error |
| TcpReceive.TcpClient.ReadLoop | devices/esp8266/TcpClientInterface.cpp:352-380 | the copy loop: a prefix of the remaining stream, in order, nothing lost or repeated unless an error callback comes before the close |
| TcpReceive.TcpClient.ScanHead | devices/esp8266/TcpClientInterface.cpp:465-482 | the head up to limit or delimiter is a delimiter-free stretch of the stream, followed by the delimiter on a hit |
| TcpReceive.TcpClient.ScanRound | devices/esp8266/TcpClientInterface.cpp:450-487 | one block, with callbacks between the steps, advances the stream by exactly the stretch it appended; a freed block is scanned iff an error callback runs in between, a stale report iff the pcb goes in the fifth batch |
| TcpReceive.TcpClient.ReadStringUntil | devices/esp8266/TcpClientInterface.cpp:440-504 | for every chain shape, offset, delimiter, limit and interleaving without an error before the close: the text and the bytes used are those of the byte loop |
| TcpReceive.TcpClient.Available | devices/esp8266/TcpClientInterface.cpp:509-511 | the bytes held when the length was read, less 2^16 exactly when they and the offset reach 2^16; a null pointer is followed iff an error callback comes after the test |
| TcpReceive.TcpClient.DiscardInput | devices/esp8266/TcpClientInterface.cpp:762-787 | everything that had arrived is discarded and reported to lwIP, and nothing that arrives meanwhile is lost unless an error comes; exact condition for a stale report |
| TcpReceive.TcpClient.Flush | devices/esp8266/TcpClientInterface.cpp:760-795 | discarded bytes reopen the window like read ones; flushing output takes nothing from the input; exact condition for a stale call of `tcp_recved` or `tcp_output` |
| TcpReceive.TcpClient.Close | devices/esp8266/TcpClientInterface.cpp:198-202 | every pbuf of the connection is freed, also those that came while closing, and the pcb is gone; lwIP is called with a freed pcb iff an error comes between the section of `disconnect` and its calls |
| TcpReceive.TcpClient.ReadStringUntilByBytes | src/utility/iIOInterface.h:341-367 | the base-class loop on this client is the byte loop on what is held, unless `available` is off, when it returns nothing |
| TcpReceive.KeptText | devices/esp8266/TcpClientInterface.cpp:440-504 | with the delimiter kept, or without one, the text is exactly the bytes used |
| TcpReceive.Serve | devices/esp8266/TcpClientInterface.cpp:344-511 | any call, with any delimiter kept or not and with whatever came before it, uses up exactly the part of the stream by which the read position advances, returns what it makes of that part, and stops short of what was held and of what arrived before it only where size, limit or delimiter say so; only an error before the close can spoil it |
| TcpReceive.Session | devices/esp8266/TcpClientInterface.cpp:344-511 | for every call sequence and every schedule without an error before the close, with arrivals between and inside the calls: the parts used are the stream from where it stood, in order, none lost, none repeated, each text answers for its part, and each part is all the call asks for of what had arrived by then |
| TcpReceive.Drain | devices/esp8266/TcpClientInterface.cpp:344-380 | reading until empty yields all that arrived: unconditionally after the peer closed, and before it unless an error comes |
| TcpReceive.ErrorInsideRead | devices/esp8266/TcpClientInterface.cpp:356-376 | a run in which `read` copies through a null pointer |
| TcpReceive.ErrorInsideScan | devices/esp8266/TcpClientInterface.cpp:450-487 | a run in which `readStringUntil` scans a freed buffer |
| TcpReceive.ErrorInsideAvailable | devices/esp8266/TcpClientInterface.cpp:509-511 | a run in which `available` follows a null pointer |
| TcpReceive.CloseInsideRead | devices/esp8266/TcpClientInterface.cpp:432-434 | a run in which `tcp_recved` is called without a pcb |
| TcpReceive.ErrorInsideClose | devices/esp8266/TcpClientInterface.cpp:168-193 | a run in which `disconnect` calls lwIP with a freed pcb |
| TcpReceive.ReadsWhatArrives | devices/esp8266/TcpClientInterface.cpp:344-380 | a client that holds nothing reads a byte that arrives before the call |
| TlsReceive.TlsClient.Callback | devices/esp8266/TlsClientInterface.cpp:946-988 | callbacks only add bytes behind those held, as many as they bring and the window admits; an error keeps the chain |
| TlsReceive.TlsClient.Report | devices/esp8266/TlsClientInterface.cpp:1048-1050 | the bytes fed are reported but for multiples of 2^16; the call gets a pcb that is gone iff an error callback runs between test and call |
| TlsReceive.TlsClient.ConsumeRxQueue | devices/esp8266/TlsClientInterface.cpp:276-315 | exactly `size` bytes leave the chain under any interference |
| TlsReceive.TlsClient.FeedHead | devices/esp8266/TlsClientInterface.cpp:1037-1042 | the engine gets as much of the head as it has room for, and what it has been given stays the stream's prefix that left the chain |
| TlsReceive.TlsClient.FeedRound | devices/esp8266/TlsClientInterface.cpp:1006-1046 | a round asks the engine iff something was held when the head was measured, and feeds the smaller of its offer and the head block |
| TlsReceive.TlsClient.FeedAll | devices/esp8266/TlsClientInterface.cpp:1006-1046 | the loop ends only when a round finds nothing held, and then all that had arrived before is fed, or at an offer of 0; each round before it has fed something, and the count is what was fed modulo 2^16 |
| TlsReceive.TlsClient.ServiceRx | devices/esp8266/TlsClientInterface.cpp:1000-1050 | the engine gets the stream in order, and it stops only after a fatal error, with nothing held when measured, so that at least all that had arrived before the call is fed, or at an offer of 0; afterwards the window is accounted for except the multiples of 2^16 the counter drops, none when the window is below 2^16; the report goes astray iff the first error callback comes right after the test of the pcb |
| TlsReceive.TlsClient.ServeAll | devices/esp8266/TlsClientInterface.cpp:1000-1050 | with no callback to come, no fatal error and as many positive offers as bytes held, everything that arrived is fed, whatever the sizes of the offers |
| TlsReceive.TlsClient.Close | devices/esp8266/TlsClientInterface.cpp:684-742 | what had arrived is released once and the pcb is gone; the report goes astray iff the first error callback is in the second batch, the calls that give the pcb up iff it comes between the section and them |
| TlsReceive.TlsClient.GiveUpPcb | devices/esp8266/TlsClientInterface.cpp:722-735 | the pcb is given up and exactly what the next batch brings is stored; lwIP is called with a freed one iff the first error callback comes between the section and the calls |
| TlsReceive.TlsClient.Destroy | devices/esp8266/TlsClientInterface.cpp:262-270 | no pbuf of the connection is left, also of those that came while closing |
| TlsReceive.ErrorInsideClose | devices/esp8266/TlsClientInterface.cpp:710-715 | a run in which `tcp_recved` is called without a pcb |
| TlsReceive.ErrorAfterSection | devices/esp8266/TlsClientInterface.cpp:722-735 | a run in which `close` calls lwIP with a freed pcb |
| PeekRead.TlsReader.Read | devices/esp32/TlsClientInterface.cpp:651-676 | the next bytes of the decrypted stream: the size asked for if that much is pending, all that is pending if the engine holds some of it, and otherwise the byte held back, if any, and the next record up to the size; a closing or broken engine ends the connection |
| PeekRead.TlsReader.ReadEngine | devices/esp32/TlsClientInterface.cpp:664-675 | from the engine: what is decrypted, or the next record up to the size, or nothing with the connection marked closed or broken |
| PeekRead.TlsReader.Available | devices/esp32/TlsClientInterface.cpp:678-709 | what is pending; with nothing pending and nothing queued 0 and no change; with data queued, one record is decrypted and its size returned with one byte held back, or the close or failure is noted |
| PeekRead.ReadWhatIsAvailable | devices/esp32/TlsClientInterface.cpp:651-709 | `read(available())` returns exactly that many bytes, also those that looking ahead has just decrypted |
| PeekRead.LooksAhead | devices/esp32/TlsClientInterface.cpp:689-697 | a queued record of five bytes: `available` answers 5 and `read` returns them |
| PeekRead.Session | devices/esp32/TlsClientInterface.cpp:651-709 | for any mix of calls, the bytes read are a prefix of the decrypted stream and all of it but a held-back byte |
| TcpWrite.SendingStep | devices/esp8266/TcpClientInterface.cpp:266-291 | one offer, refused or accepted, keeps: accepted payload is the data's prefix, and the flag rules |
| TcpWrite.Sender.SendChunk | devices/esp8266/TcpClientInterface.cpp:266-291 | one offer as large as the room allows: accepted it extends the stream by the next bytes, refused it changes nothing, and cut it sets the flag |
| TcpWrite.Sender.SendLoop | devices/esp8266/TcpClientInterface.cpp:226-292 | terminates for any answers; accepted payloads concatenate to the first `sent` bytes; it gives up only without a pcb or after the full wait, and each spell of waiting begins with a call of `tcp_output`; when all is sent, the last segment carries the flag iff it was set before or an offer was cut |
| TcpWrite.Sender.Finish | devices/esp8266/TcpClientInterface.cpp:296-314 | if nothing was unacknowledged, `tcp_output` is called behind all segments and its error is the result; without new acknowledgements the flag is clear afterwards |
| TcpWrite.Sender.Write | devices/esp8266/TcpClientInterface.cpp:214-315 | the result is the number of bytes accepted, or an lwIP error, or the state error with nothing sent; waiting is bounded per segment; the last segment of fully sent data is pushed iff nothing was unacknowledged and no offer was cut; if nothing was unacknowledged `tcp_output` is called last, with its error as the result, and the flag is clear until the next acknowledgement; with a willing lwIP everything is sent at once |
| TcpWrite.SplitWrite | devices/esp8266/TcpClientInterface.cpp:214-315 | two bytes sent in two segments, the last of them not pushed |
| TcpWrite.Sender.WriteRo | devices/esp8266/TcpClientInterface.cpp:320-339 | accepted bytes are a prefix of the text, and the result falls behind them by at most one buffer; with a willing lwIP all of it is sent |
| Dns.Resolver.Lookup | devices/esp8266/TcpClientInterface.cpp:13-119 | in flight iff exactly one callback is outstanding; an address is a literal, cached, or lwIP's answer to this host during this call; a busy lookup changes nothing |
| Dns.Resolver.Await | devices/esp8266/TcpClientInterface.cpp:98-114 | the outcome is the first answer to the lone lookup before the timeout, or failure with the lookup left in flight |
| Dns.FirstAnswer | devices/esp8266/TcpClientInterface.cpp:98-114 | the reply to a lookup is the first answer that lwIP gives it, and there is none iff none comes |
| Dns.Life | devices/esp8266/TcpClientInterface.cpp:71-119 | over all sequences of calls, timeouts and late callbacks every outcome is the expected one, which late answers do not enter |
| Dns.LateAnswers | devices/esp8266/TcpClientInterface.cpp:13-21 | what a late answer says changes no expected outcome |
| PendingSlot.StepInv | devices/esp8266/TlsServerInterface.cpp:55-213 | every step keeps: client flag iff slot filled; a pcb's callbacks belong to the server iff it is pending and to a client iff that holds it; every stream in order |
| PendingSlot.RunInv | devices/esp8266/TcpServerInterface.cpp:58-210 | the same for every run from the start |
| PendingSlot.OneFate | devices/esp8266/TlsServerInterface.cpp:85-213 | in every run a connection is exactly one of pending, delivered, let go, closed, aborted or freed |
| PendingSlot.OrphanedExactly | devices/esp8266/TcpServerInterface.cpp:99-150 | a connection is let go live iff `accept` has no memory (TCP), TLS set-up fails and cannot close, the pending peer closes and cannot be closed, or a TLS client cannot close |
| PendingSlot.OrphanExample | devices/esp8266/TcpServerInterface.cpp:99-112 | a three-step run that leaves a connection without owner |
| PendingSlot.Final | devices/esp8266/TcpServerInterface.cpp:58-210 | an ended connection stays ended in the same way |
| PendingSlot.SlotUndisturbed | devices/esp8266/TcpServerInterface.cpp:123-171 | callbacks of any other connection leave the slot alone, although `onPendingError` does not check |
| PendingSlot.Stream | devices/esp8266/TcpServerInterface.cpp:99-150 | in every run, without discards: what lwIP took is what the client passed on to its reader or TLS engine, what it holds and what was refused, in order |
| PendingSlot.DropsOnly | devices/esp8266/TcpClientInterface.cpp:168-202 | only a close of the client discards bytes, or an error or flush of a TCP client |
| PendingSlot.RefusedThenDelivered | devices/esp8266/TcpServerInterface.cpp:131-150 | bytes refused while pending all reach the client after `accept` |
| PendingSlot.ReadableAfterFin | devices/esp8266/TcpClientInterface.cpp:535-550 | after an orderly close everything lwIP took is still read, in order |
| PendingSlot.NewestWins | devices/esp8266/TcpServerInterface.cpp:180-210 | while listening, the newest connection gets the slot, live and with nothing of its stream taken, at the given time; the one before it is aborted and no other is touched; otherwise nothing changes |
| PendingSlot.Expires | devices/esp8266/TcpServerInterface.cpp:152-171 | the timer aborts the pending connection and frees the slot iff a timeout is set and more than it has passed modulo 2^32; otherwise nothing changes |
| PendingSlot.ServerCloses | devices/esp8266/TcpServerInterface.cpp:58-77 | `close` stops listening and leaves the pending connection closed, or aborted where it cannot be closed; no other connection and no client is touched |
| PendingSlot.ServerBegins | devices/esp8266/TcpServerInterface.cpp:32-53 | `begin` does what `close` does and then listens iff it worked |
| PendingSlot.HandsOut | devices/esp8266/TcpServerInterface.cpp:99-112 | `accept` gives the pending connection, live and on the client's callbacks, to a client that has read and lost nothing, and frees the slot |
| PendingSlot.CannotHandOut | devices/esp8266/TlsServerInterface.cpp:85-112 | where `accept` fails there is no client: TLS aborts without memory, closes or lets go after a failed set-up, TCP lets go |
| PendingSlot.RefusedWhilePending | devices/esp8266/TcpServerInterface.cpp:131-150 | while pending, data is held by lwIP and refused, more of it is not taken, and offering it again changes nothing |
| PendingSlot.PendingEnds | devices/esp8266/TcpServerInterface.cpp:136-150 | the peer's close ends the pending connection, but only behind its data, and frees the slot; where it cannot be closed it is let go |
| PendingSlot.PendingFails | devices/esp8266/TcpServerInterface.cpp:123-129 | an error frees the pending connection and the slot |
| PendingSlot.ClientReceives | devices/esp8266/TcpClientInterface.cpp:552-561 | new data goes behind what the client has, and only when none is refused |
| PendingSlot.ClientReceivesRefused | devices/esp8266/TcpServerInterface.cpp:131-150 | data refused before goes to the client, as much as lwIP offers again |
| PendingSlot.ClientSeesClose | devices/esp8266/TcpClientInterface.cpp:535-550 | the peer's close detaches a TCP client and leaves it all it holds; a TLS client does not notice |
| PendingSlot.ClientSeesError | devices/esp8266/TcpClientInterface.cpp:570-593 | an error detaches a client; a TCP client loses what it holds and a TLS client keeps it |
| PendingSlot.ClientReads | devices/esp8266/TcpClientInterface.cpp:344-380 | a client passes on the next bytes of the wire, as many as are asked for and held |
| PendingSlot.ClientFlushes | devices/esp8266/TcpClientInterface.cpp:760-795 | `flush` of a TCP client discards what it holds and nothing else |
| PendingSlot.ClientCloses | devices/esp8266/TcpClientInterface.cpp:198-202 | `close` of a client discards what it holds and gives up its pcb: closed, or else aborted by TCP and let go by TLS |
| Servers.Server.CloseAll | devices/esp8266/TcpServerInterface.cpp:58-77 | `close` is the machine's step (`PendingSlot.ServerCloses` says what it does) and touches only live connections |
| Servers.Server.Begin | devices/esp8266/TcpServerInterface.cpp:32-53 | `begin` is the machine's step (`PendingSlot.ServerBegins`) |
| Servers.Server.Accepted | devices/esp8266/TcpServerInterface.cpp:180-210 | `onAccept` is the machine's step (`PendingSlot.NewestWins`): the new connection is in the slot on the server's callbacks, and the displaced one is unhooked and then aborted |
| Servers.Server.TakeClient | devices/esp8266/TlsServerInterface.cpp:85-112 | `accept` is the machine's step in all its failure paths; a returned client is attached |
| Servers.Server.MakeClient | devices/esp8266/TlsServerInterface.cpp:97-111 | what each outcome does to the connection after it left the slot |
| Servers.Server.OnPendingError | devices/esp8266/TcpServerInterface.cpp:123-129 | clearing the slot unchecked is right: the freed connection is the pending one |
| Servers.Server.OnPendingRecv | devices/esp8266/TcpServerInterface.cpp:131-150 | data is refused with no change; the peer's close is the machine's step |
| Servers.Server.PollPending | devices/esp8266/TcpServerInterface.cpp:152-171 | the timer is the machine's step (`PendingSlot.Expires`), and reports an abort iff it aborted |
| EndToEnd.Progresses | devices/esp8266/TcpClientInterface.cpp:344-565 | any progress of a client, refused bytes first, is a run of the machine |
| EndToEnd.ElsewhereKeeps | devices/esp8266/TcpServerInterface.cpp:58-210 | the server and other connections never touch a client that was handed out |
| EndToEnd.Connection | devices/esp8266/TcpServerInterface.cpp:99-112 | pending after any run, accepted, then any calls, with arrivals between and inside them and other events: without an error before the close, the parts used are the start of what the peer sent, each text answers for its part, each part is all its call asks for of what had arrived, and a run of the machine ends in the same client |
| FileSearch.StrStr | src/utility/StringOperations.cpp:25-52 | the leftmost occurrence before the NUL and below `len`, or -1 exactly when there is none or the pattern is empty |
| FileSearch.Agreement | src/utility/StringOperations.cpp:36-46 | the inner loop reaches the pattern's end iff the pattern occurs there |
| FileSearch.TailMatches | external/LittleFSWrapper.cpp:291-298 | the window equals the pattern iff the pattern ends at this byte |
| FileSearch.WindowSearch | external/LittleFSWrapper.cpp:297-303 | on a window of pattern length the search answers 0 iff window and pattern are equal |
| FileSearch.ScanChunk | external/LittleFSWrapper.cpp:287-312 | the first byte of the chunk at which the pattern ends, also for matches that began in earlier chunks |
| FileSearch.ReadFile | external/LittleFSWrapper.cpp:241-334 | for every file, offset, pattern, chunk size and callback: without a search the callback is fed the rest chunk by chunk until it stops; with one, the bytes before the end of the leftmost occurrence, or fewer if it stops; the distance is returned and a match reported iff the callback let the search come to it |
| FileSearch.FeedStops | external/LittleFSWrapper.cpp:323-326 | once the callback stops, the rest of the file does not matter |
| FileSearch.FeedPieces | external/LittleFSWrapper.cpp:278-330 | the callback gets the data in order, in pieces of the chunk size and one shorter one at the end |
| Finding.NextMatch | external/LittleFSWrapper.cpp:625-634 | the distance to the end of the next match, whatever the chunk size |
| Finding.FindInFile | external/LittleFSWrapper.cpp:597-669 | forwards: the shortest start of all greedy matches that reaches the maximum, every n-th kept; backwards: all matches, the last picks kept; errors for no pattern and no file |
| Finding.Search | external/LittleFSWrapper.cpp:607-668 | the loop, in both directions, for any offset, step and maximum |
| Finding.GreedyMatches | external/LittleFSWrapper.cpp:623-663 | each match is the leftmost occurrence behind the one before, none overlap, and none is left behind the last |
| Finding.PickForm | external/LittleFSWrapper.cpp:617-647 | exactly match number `first` and every n-th one after it is kept |
| Finding.CapBounds | external/LittleFSWrapper.cpp:613-615 | the maximum is divided by the step, rounding down |
| Finding.ForwardPicks | external/LittleFSWrapper.cpp:613-647 | with T matches, step n and maximum m: it looks at (m div n)*n of them, at one if that is 0, or at all T, and keeps exactly match n, 2n, ... of those |
| Finding.BackwardPicks | external/LittleFSWrapper.cpp:613-647 | with T matches, step n and maximum m: match T-j*n+1 for j from T div n down to 1, or from m div n if that is less and not 0, and the result T |
| Finding.BackwardMaximum | external/LittleFSWrapper.cpp:613-647 | n times the number kept is above the maximum m iff m is below the step and the step not above T |
| Finding.MaximumIgnored | external/LittleFSWrapper.cpp:613-647 | two matches, step 2 and maximum 1: one is kept |
| Finding.FindBackward | external/LittleFSWrapper.cpp:597-669 | the call from minus the file size has that result |
| Lines.LineOfOffset | external/LittleFSWrapper.cpp:678-850 | the start of line n lies on line n, for every n up to the newline count |
| Lines.OffsetOfLine | external/LittleFSWrapper.cpp:678-850 | the start of an offset's line is the greatest line start not behind it |
| Lines.OffsetChunk | external/LittleFSWrapper.cpp:714-737 | the callback's loop computes the offset callback used in the proofs |
| Lines.LineChunk | external/LittleFSWrapper.cpp:797-817 | the callback's loop computes the line callback used in the proofs |
| Lines.OffsetFed | external/LittleFSWrapper.cpp:710-739 | chunk by chunk, the callback ends behind the n-th newline, for every chunk size |
| Lines.LineFed | external/LittleFSWrapper.cpp:794-818 | chunk by chunk, the callback counts the newlines before the offset, for every chunk size |
| Lines.TotalLines | external/LittleFSWrapper.cpp:682-703 | newlines plus an unterminated last line |
| Lines.GetOffsetFromLineNumber | external/LittleFSWrapper.cpp:678-739 | the offset behind the n-th newline or the end; negative lines count from the total; range and file errors; line 0 does not look at the file |
| Lines.GetLineNumberFromOffset | external/LittleFSWrapper.cpp:781-818 | the number of newlines before the offset; negative offsets count from the end |
| Lines.LineThereAndBack | external/LittleFSWrapper.cpp:678-818 | line(offset(n)) = n |
| Lines.OffsetThereAndBack | external/LittleFSWrapper.cpp:678-818 | offset(line(o)) is the greatest line start not behind o |
| Lines.NewlineMatches | external/LittleFSWrapper.cpp:861-891 | greedy matches of a newline are the ends of the lines |
| Lines.MakeIndex | external/LittleFSWrapper.cpp:876-888 | the vector updates turn newline positions into line starts below the file size |
| Lines.GetLineNumbersInFile | external/LittleFSWrapper.cpp:861-891 | the index from the line's offset over the newlines the maximum admits, and its length as the result |
| Lines.IndexIsOffsets | external/LittleFSWrapper.cpp:861-891 | entry k is the direct lookup of line L+k, and all lines that start before the end are listed |
| Lines.IndexAgrees | external/LittleFSWrapper.cpp:678-891 | the calls themselves: entry k of the index from line L is the lookup of line L+k, and the index has all lines |
| Lines.IndexEmpty | external/LittleFSWrapper.cpp:861-891 | the index is empty iff no newline follows |
| Lines.IndexMissesLine | external/LittleFSWrapper.cpp:861-891 | a file with a line and an empty index |
| Lines.IndexMaximum | external/LittleFSWrapper.cpp:861-891 | with a maximum, the index is one longer than it iff there are more lines than that, and never longer |
| Lines.IndexOneMore | external/LittleFSWrapper.cpp:861-891 | two lines listed for a maximum of one |
| Lines.ReadLineInFile | external/LittleFSWrapper.cpp:902-975 | without a pattern: with the raw line all characters from its start up to the next newline or the end, the text is the raw line, or it is the raw line less its last character if that is a carriage return, and the result is its length; range, missing-line and file errors |
| Lines.WholeFile | external/LittleFSWrapper.cpp:902-975 | the lines with their newlines put back are the file less each carriage return right before a newline or the end |
| Lines.Rebuild | external/LittleFSWrapper.cpp:902-975 | for every file, reading all lines one by one and joining them gives the file less each carriage return right before a newline or the end |
| Lines.StrippedNothing | external/LittleFSWrapper.cpp:969-972 | that is the file itself iff no carriage return stands before a newline or the end |
| CertLoader.CountPass | devices/esp8266/BearSSLCertLoader.cpp:113-134 | counts the non-empty certificates and their bytes, with any other, empty or unterminated objects around them |
| CertLoader.OpenFits | devices/esp8266/BearSSLCertLoader.cpp:118-133 | an open certificate is the start of the next one that was counted |
| CertLoader.FillEvent | devices/esp8266/BearSSLCertLoader.cpp:154-171 | one decoder event of any stream keeps the finished certificates in place and the open one behind them, or would write past the block |
| CertLoader.FillPass | devices/esp8266/BearSSLCertLoader.cpp:150-171 | over any second stream: it writes past the block iff the stream hands the sink more than the block has; otherwise entry k is its k-th certificate, for as many as there are entries |
| CertLoader.LoadCertChain | devices/esp8266/BearSSLCertLoader.cpp:104-183 | for any two readings: exact conditions for an overrun and for success; the chain lists the certificates of the second reading in order, or the heap is as before |
| CertLoader.SameFits | devices/esp8266/BearSSLCertLoader.cpp:36-44 | reading the same stream again, or a part of it, never hands the sink more than was counted |
| CertLoader.Unchanged | devices/esp8266/BearSSLCertLoader.cpp:104-183 | a file that has not changed never overruns, and the chain lists its certificates |
| CertLoader.GrownFile | devices/esp8266/BearSSLCertLoader.cpp:140-171 | a file that has grown by a byte between the passes overruns |
| CertLoader.CertificateName | devices/esp8266/BearSSLCertLoader.cpp:50-52 | an object is a certificate iff the word CERTIFICATE stands somewhere in its name |
| CertLoader.CertsOfFile | devices/esp8266/BearSSLCertLoader.cpp:113-134 | the certificates of a file are the contents of its non-empty objects with such a name, whole and in order, however the decoder cuts them |
| CertLoader.OthersIgnored | devices/esp8266/BearSSLCertLoader.cpp:113-171 | an object without the word in its name, put anywhere between the others, changes neither the certificates nor the bytes handed to the sink |
| CertLoader.KeyBetween | devices/esp8266/BearSSLCertLoader.cpp:50-52 | a private key between two certificates is skipped |
| CertLoader.FailsAt | devices/esp8266/BearSSLCertLoader.cpp:60-100 | a reading fails iff the decoder reports an error somewhere |
| CertLoader.Slice | devices/esp8266/BearSSLCertLoader.cpp:150-171 | the slice of entry k holds certificate k |
| CertLoader.Disjoint | devices/esp8266/BearSSLCertLoader.cpp:150-171 | slices do not overlap |
| CertLoader.FreeCertChain | devices/esp8266/BearSSLCertLoader.cpp:185-191 | both blocks are released once |
| TrustAnchors.Grown | devices/esp8266/BearSSLCertLoader.cpp:206-207 | the size is doubled at least once, from 128 if there was none, and no further than needed |
| TrustAnchors.Push | devices/esp8266/BearSSLCertLoader.cpp:202-215 | the buffer holds the pushes so far; after a failed growth it stays the only block |
| TrustAnchors.CaptureDn | devices/esp8266/BearSSLCertLoader.cpp:202-215 | the captured name is the concatenation of all pushes |
| TrustAnchors.Trim | devices/esp8266/BearSSLCertLoader.cpp:242-247 | trimming keeps the name, whether or not it succeeds |
| TrustAnchors.FreeContents | devices/esp8266/BearSSLCertLoader.cpp:217-227 | every block of an anchor is released once and nothing else |
| TrustAnchors.CertToAnchor | devices/esp8266/BearSSLCertLoader.cpp:229-272 | an anchor that says what the decoder reported, or a heap as before; it fails only for want of memory or of an RSA or EC key |
| TrustAnchors.BuiltStep | devices/esp8266/BearSSLCertLoader.cpp:294-302 | one more anchor leaves the earlier ones intact and all of them apart |
| TrustAnchors.FreeAll | devices/esp8266/BearSSLCertLoader.cpp:296 | the cleanup loop releases every anchor's blocks once |
| TrustAnchors.BuildAll | devices/esp8266/BearSSLCertLoader.cpp:294-302 | anchor i comes from certificate i, or all is given back |
| TrustAnchors.LoadTrustAnchors | devices/esp8266/BearSSLCertLoader.cpp:276-308 | for every failure pattern and any two readings that do not outgrow the block: one anchor per certificate and no other new block, or the heap as before; with memory, success iff both readings succeed, certificates are there in number and all have usable keys |
| TrustAnchors.FreeTrustAnchors | devices/esp8266/BearSSLCertLoader.cpp:310-317 | the heap returns to its state before loading |
| San.EncodeSan | devices/esp32/TlsCertProvisioner.cpp:71-105 | the DER sequence of the requested names, header bytes, tags, lengths and values each in place, and nothing written behind it; 0 and an untouched buffer iff it is empty, over 127 bytes or does not fit |
| San.EncodableWhen | devices/esp32/TlsCertProvisioner.cpp:71-82 | 256 bytes take a DNS name of up to 125 bytes, or 119 beside an address |
| San.IpByte | devices/esp32/TlsCertProvisioner.cpp:88-95 | byte i of an encoded address is its digit of 256^i |
| San.IpRoundTrip | devices/esp32/TlsCertProvisioner.cpp:53-57 | the four bytes give the address back |
| San.ParseDer | devices/esp32/TlsCertProvisioner.cpp:71-105 | parsing undoes the encoding of any names with one-byte lengths |
| San.SanMatches | devices/esp32/TlsCertProvisioner.cpp:33-69 | true iff every requested part is among the names |
| San.TagBytes | devices/esp32/TlsCertProvisioner.cpp:41-66 | addresses have the tags 0x87 and 0xA7, DNS names 0x82 and 0xA2 |
| San.EncodedCovers | devices/esp32/TlsCertProvisioner.cpp:33-105 | an encoded and parsed extension covers a request iff each requested part equals the encoded one |
| San.CertStore.Extension | devices/esp32/TlsCertProvisioner.cpp:217-230 | the extension is exactly the encoding of the request and covers it, and fails iff it cannot be encoded |
| San.CertStore.GenerateCert | devices/esp32/TlsCertProvisioner.cpp:123-262 | succeeds iff the device is named, the names can be encoded and both files are stored, and then the certificate has exactly the requested names and the key is its key; what each failure leaves |
| San.CertStore.EnsureServerCert | devices/esp32/TlsCertProvisioner.cpp:264-292 | a current pair is kept untouched; otherwise success iff a new one can be made; after success the pair is current, and the key belongs to the certificate unless a mismatched pair was kept |
| San.EnsureTwice | devices/esp32/TlsCertProvisioner.cpp:264-292 | the second of two equal requests keeps the certificate of the first |
| San.MismatchedPair | devices/esp32/TlsCertProvisioner.cpp:245-292 | a lost key write makes the next request succeed on a key of another certificate |
| Micros.MicrosClock.MicrosNow | devices/arduinouno/DeviceControlInterface.cpp:308-316 | never goes back, except when the 32-bit wrap counter wraps |
| Micros.Track | devices/arduinouno/DeviceControlInterface.cpp:308-316 | read within every 2^32 microseconds, each value is the true time |
| Micros.GoesBack | devices/arduinouno/DeviceControlInterface.cpp:308-316 | a reading that is smaller than the one before |

## Left out

- TcpReceive.TcpClient.Read: after an error callback has discarded bytes, only the part copied before is promised, and a copy from a buffer that is gone or a call with a pcb that is gone is a reported outcome, not a crash.
- TcpReceive.TcpClient.ReadRound: the copy of one block is one step; an error callback in the middle of it is not modelled.
- TcpReceive.TcpClient.DisconnectByTask: the calls that take the callbacks off and close the pcb are one step.
- Servers.Server.TakeClient: a callback in the middle of `accept`, as of `begin` and `close`, is not modelled.
- TcpWrite.Sender.Write: data of 2^31 bytes and more, which the 32-bit counters could not hold and the devices' memory cannot either.
- EndToEnd.Connection: says nothing once an error callback has dropped bytes of this connection, and covers the TCP client; the TLS client's stream is covered by `TlsReceive`.
- PendingSlot.ReadableAfterFin: for TCP clients; the TLS client ignores the peer's close and keeps its pcb.
- FileSearch.ReadFile: patterns and, with a search, chunks above 65535, where the source's 16-bit index would wrap.
- CertLoader.LoadCertChain: decoder events in which objects nest or data lies outside objects, which the PEM decoder does not report; and anything after an overrun.
- San.ParseDer: the certificate parser of mbedTLS, which is foreign code, is represented by a DER parser with lengths of up to two bytes.
- The esp32 variants of the TCP client, which hold lwIP's lock where the esp8266 code uses critical sections; they would add no other claim. Their servers construct the client after unlocking, so the stream result is for the esp8266.
- `bioRecv`, `bioSend` and `write` of the esp32 TLS client: thin loops over the same queue.
- `pumpEngine` when `tcp_write` refuses a record: it acknowledges the engine regardless, so there is no conservation to state.
- The rest of `connect` after the lookup, keep-alive, and the destruction of a client while a lookup is in flight.
- A file search when the window cannot be allocated: `readFile` then reads without searching (a parameter of `ReadFile`); `findInFile` and the line functions are modelled with memory.
- Sizes and offsets of 2^31 bytes and more in `LittleFSWrapper`, and the pattern branch of `readLineInFile`, a heuristic over 50 lines.
- The contents of the two pointer tables that the certificate loader allocates are kept as sequences beside their blocks.
- TLS handshake, engine set-up, worker tasks, cryptography, certificate subject and validity fields.
- Directories, attributes, file handles and block callbacks of `LittleFSWrapper`.
- WiFi, GPIO, serial, storage, NTP, ping, OTA, scheduling, database, shell and the configuration scripts.
