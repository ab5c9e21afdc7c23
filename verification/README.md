# Verified model of the UART, USB serial and HTTP demos

The repository holds a set of Zephyr demos. This project models the hand-written byte-level state machines
among them and proves what they do over every run.

* **Driver B** (`drivers/my_uart_peripheral_b`), a stop-and-wait sender and CR/LF receiver. Data is sent as
  `SEND:` + data from an item ring, one item at a time; the next item waits for a received line that begins
  with `OK`, or for a 5000 ms timer. `GuardedSender*.dfy` is the driver as a state machine over values with a
  history of what was accepted, refused, sent and received; `UartDriverB.dfy` is the driver with its buffers,
  ring, guard and timer updated in place, every method proved to take exactly the steps of the state machine;
  `UartDriverBPromises.dfy` carries the theorems over to driver objects.
* **Driver A** (`drivers/my_uart_peripheral`), NUL-terminated strings out, fragments of a bounded buffer in.
* **The receive buffers of both drivers** follow one rule, in `Chunking.dfy`: a terminator or a full buffer ends
  a chunk. The rule is stated without the machine and proved to have one solution for every stream, the one the
  machine computes.
* **The echo bot**, whose line reader differs: it truncates, and takes a terminator that comes first as data.
* **The USB serial demos**, one port echoing and two ports crossed, over byte rings (`Lane.dfy`).
* **The HTTP server's** request scanner and partial-send loop.

`Ring.dfy` and `ItemRing.dfy` stand in for the kernel's `ring_buf`: a circular array that refines a sequence, and
on top of it items of one header word and data words. Buffer sizes are parameters everywhere the source makes
them configurable.

## What is assumed

* Handlers, the timer callback and calls into a driver are atomic with respect to each other. Driver B tests the
  guard and then switches the TX interrupt off (lines 167-169) without protection; that is only safe under this
  assumption.
* The hardware is free: which bytes arrive, when the TX FIFO is ready, how often the handler loops run, and what
  `recv` and `send` return are inputs, quantified over in every theorem.
* The kernel timer fires at or after its deadline, never before; starting it again replaces the deadline.
* Only for bounded progress: time passes only while no TX interrupt is enabled, its FIFO counting as ready, and
  not beyond the deadline of a running timer (`GuardedSenderProgress.Prompt`).
* Driver B's sends satisfy `length + 5 < 4 * TXW` (`GuardedSender.Fits`); the order and progress theorems also
  assume `TXW <= 255`. The state machine and the class keep the driver's eight-bit word counts, so what happens
  otherwise is stated too, for every TXW from 1 to 511 and data that does not run past the word buffer. A first send is
  transmitted whole exactly if it needs at most `TXW mod 256` words, which for `TXW <= 255` is the length
  precondition (`TransmittedIffFits`). Up to TXW 254 a send that fills the buffer to its last byte is never
  transmitted, nor is anything accepted after it (`OverlongSendEndsAll`); at TXW 255 it is queued without any words
  and taken out again, sending nothing of its own and holding up the next item (`ShortestMisfit`). Beyond 255 a legal
  send is sized right exactly if it needs at most `TXW - 256` words (`SizeRightIff`). Longer data overruns the buffer,
  which is on the stack. The echo application keeps the precondition exactly when `RX + 5 < 4 * TXW`, which the
  default sizes of 64 bytes and 16 words do not satisfy (`GuardedSenderEcho.DefaultsDoNotFit`).

## Where documentation and code disagree

* README.rst:40 shows replies that start with `Echo: `; the code, followed here, prints `Echo_xxx: `.
* README.rst:10-11 promises an echo of the characters after an end of line. That holds for messages exactly on
  input without empty lines; with CRLF line ends the LF becomes the first character of the next message
  (`EchoSegments.MessagesAreLinesIff`, `EchoSegments.CrLfLeaksIntoNextMessage`).

## Model

| member | source | states |
|---|---|---|
| GuardedSenderRuns.StopAndWaitInEveryRun | drivers/my_uart_peripheral_b/my_uart_peripheral_b.c:144-194 | in every run, between any two transmissions a received line beginning with OK was completed, or they are at least 5000 ms apart; an earlier OK gives no credit and a timer left running by an OK releases nothing |
| GuardedSenderRuns.RateBound | drivers/my_uart_peripheral_b/my_uart_peripheral_b.c:144-194 | in every run, transmissions <= 1 + OK lines received since the first transmission + floor(ms since the first transmission / 5000) |
| GuardedSenderRuns.ExactlyOnceInOrder | drivers/my_uart_peripheral_b/my_uart_peripheral_b.c:78-103 | for TXW <= 255, in every run whose sends fit the word buffer, transmitted items followed by queued ones are the bytes SEND: and the data of the accepted sends, in order; a send of n bytes is refused exactly when (n + 5) / 4 + 2 words are more than the ring has left beside the same count for each accepted send not yet transmitted |
| GuardedSenderRuns.NoLostWakeupNoStuckGuard | drivers/my_uart_peripheral_b/my_uart_peripheral_b.c:53-195 | in every reachable state a waiting item with the guard down has the TX interrupt on; the guard is up exactly if neither an OK line nor an expiry followed the last transmission; the timer runs from each transmission to its expiry and, while the guard is up, is due 5000 ms after the last one; the head item always fits the handler's buffer |
| GuardedSenderRuns.TransmitsIff | drivers/my_uart_peripheral_b/my_uart_peripheral_b.c:166-196 | a ready TX FIFO makes the driver send the oldest unsent accepted item if and only if there is one and the last transmission was released; otherwise only the TX interrupt goes off |
| GuardedSenderProgress.BoundedProgress | drivers/my_uart_peripheral_b/my_uart_peripheral_b.c:53-197 | whatever bytes and sends arrive, at every moment each queued item with k items ahead of it is on the wire, with its own bytes, within (k + 1) * 5000 ms, and within (ring words / 3) * 5000 ms in any case, or that time has not passed yet |
| GuardedSenderProgress.DrainSendsAll | drivers/my_uart_peripheral_b/my_uart_peripheral_b.c:53-197 | from every state so reached there are steps of the driver and its timer alone, each transmission made by a TX interrupt that is on, that send the whole queue, in order, within 5000 ms per item; no interrupt left on keeps time from passing |
| GuardedSenderRuns.TransmittedIffFits | drivers/my_uart_peripheral_b/my_uart_peripheral_b.c:84-94 | for every TXW and a first send that does not run past the word buffer and for which the ring has room: some continuation hands something to the UART if and only if the eight-bit word count is at most TXW mod 256, and sends all of the data if and only if the words needed are at most TXW mod 256; for TXW <= 255 that is length + 5 < 4 * TXW |
| GuardedSenderRuns.ShortestMisfit | drivers/my_uart_peripheral_b/my_uart_peripheral_b.c:173-192 | the shortest data never sent whole, of 4 * (TXW mod 256) - 5 bytes (none at all if that is below 0; at TXW 1 every send runs past the buffer): nothing is ever transmitted after it, except that where TXW mod 256 is 255 its item is queued without words and taken out by the handler, which sends none of it and raises the guard |
| GuardedSenderRuns.WhatIsTransmitted | drivers/my_uart_peripheral_b/my_uart_peripheral_b.c:177-190 | for every TXW, in every run whose sends do not run past the word buffer, the i-th item transmitted is SEND: + the i-th accepted data as far as its eight-bit word count reaches, so all of it if and only if it needs at most 255 words |
| GuardedSenderRuns.OverlongSendEndsAll | drivers/my_uart_peripheral_b/my_uart_peripheral_b.c:174-180 | in those runs, neither an accepted send counted at more words than TXW mod 256 nor anything accepted after it is ever transmitted; up to TXW 254 that includes every send that breaks the length precondition |
| GuardedSenderEcho.ReceiverCutsStream | drivers/my_uart_peripheral_b/my_uart_peripheral_b.c:136-164 | in every legal run the chunks taken from the RX buffer and the bytes left in it are the only way to cut the received stream into terminated or full chunks, whatever else the driver does |
| GuardedSenderEcho.OffersOfEveryRun | drivers/my_uart_peripheral_b/my_uart_peripheral_b.c:148-156 | in every legal run the driver is offered, in order, exactly what the application sent and, while the callback is installed, each received line, as the bytes and calls alone determine them |
| GuardedSenderEcho.ClosedLoopEcho | src/main_my_uart_peripheral_b.c:9-18 | with RX + 5 < 4 * TXW, the echo callback and no other sender: every offered line keeps the length precondition, so the run is legal, and the head item fits; the lines offered for sending are exactly those of the received stream, OK lines included; what is sent and queued are SEND: + the accepted ones; a line is lost exactly when the ring words left beside the unsent ones are too few for it |
| GuardedSenderEcho.ClosedLoopEchoInTime | src/main_my_uart_peripheral_b.c:9-18 | and with interrupts served promptly every accepted line leaves within 5000 ms for each item up to it, and within (ring words / 3) * 5000 ms in any case |
| GuardedSenderEcho.EchoFitsIff | src/main_my_uart_peripheral_b.c:14-18 | the echo callback never breaks the driver's length precondition if and only if RX + 5 < 4 * TXW |
| UartDriverB.SizeRightIff | drivers/my_uart_peripheral_b/my_uart_peripheral_b.c:91-92 | for TXW in 1..511 and any legal size, the eight-bit sizes are not truncated, the padding is 1..4 and the handler asks for enough words if and only if the words needed are at most TXW mod 256 |
| UartDriverB.SizesRightIff | drivers/my_uart_peripheral_b/my_uart_peripheral_b.c:174-176 | for TXW in 2..511 that is so for all legal sizes if and only if TXW <= 255 |
| UartDriverB.BuildItem | drivers/my_uart_peripheral_b/my_uart_peripheral_b.c:84-92 | the words and padding tag carry SEND: + data as far as the word count reaches, all of it up to 255 words, whatever the uninitialised buffer held |
| UartDriverB.BuildUserSendData | drivers/my_uart_peripheral_b/my_uart_peripheral_b.c:64-69 | the buffer starts with the bytes of SEND: and then the data; the bytes behind them are untouched |
| UartDriverB.CheckSendingGuard | drivers/my_uart_peripheral_b/my_uart_peripheral_b.c:46-51 | true exactly for two or more bytes of which the first are 79 and 75, O and K |
| UartDriverB.Driver.UserSendData | drivers/my_uart_peripheral_b/my_uart_peripheral_b.c:78-103 | takes the send step: data of n bytes is accepted, queued and TX enabled if and only if the words used in the ring, a header and ((n + 5) / 4 + 1) mod 256 words are no more than its size; otherwise nothing changes |
| UartDriverB.Driver.ReceiveByte | drivers/my_uart_peripheral_b/my_uart_peripheral_b.c:136-164 | takes the receive step, callback and echo included; the guard goes down exactly at a line that begins with O, K; the tail of the buffer is zero afterwards |
| UartDriverB.Driver.TransmitReady | drivers/my_uart_peripheral_b/my_uart_peripheral_b.c:166-196 | takes the transmit step: with the guard down and a head item of at most TXW mod 256 words, sends it, raises the guard and starts the timer for 5000 ms; otherwise only switches TX off |
| UartDriverB.Driver.SendingGuardTimerExpired | drivers/my_uart_peripheral_b/my_uart_peripheral_b.c:53-62 | takes the expiry step |
| UartDriverB.HandlerEventsAre | drivers/my_uart_peripheral_b/my_uart_peripheral_b.c:128-198 | for any number of passes the steps of a call are, pass by pass and by position, one receive step for each byte read, with that byte, and then one transmit step if and only if the FIFO is ready; there are no others |
| UartDriverB.Driver.UartIntHandler | drivers/my_uart_peripheral_b/my_uart_peripheral_b.c:128-198 | a call takes exactly those steps; in particular one pass with a ready FIFO sends the head item, raises the guard and starts the timer if the guard is down, or if the bytes read in that pass complete an OK line |
| UartDriverBPromises.DriverKeepsPromises | drivers/my_uart_peripheral_b/my_uart_peripheral_b.c:46-198 | a driver in place, whatever calls it has had since it was made: its log keeps the stop-and-wait rule and the rate; its guard and timer are those of the log; for TXW <= 255 what it sent and then holds in its ring are SEND: + the accepted sends in order, one refused needed more words than the unsent ones left, and items in the ring with the guard down have TX enabled |
| UartDriverBPromises.DriverReceives | drivers/my_uart_peripheral_b/my_uart_peripheral_b.c:136-164 | and it has cut the bytes of its calls as the framing rule says and offered for sending the sends and, while the callback was installed, the lines |
| UartDriverBPromises.HandlerReads | drivers/my_uart_peripheral_b/my_uart_peripheral_b.c:136-139 | those bytes are, for each handler call, the bytes of its passes in order |
| UartDriverB.Driver.constructor | drivers/my_uart_peripheral_b/my_uart_peripheral_b.c:259-272 | starts in the initial state of the state machine |
| ItemRing.UnpackPack | drivers/my_uart_peripheral_b/my_uart_peripheral_b.c:89-94 | reading words back as bytes is the identity on the bytes packed |
| ItemRing.ItemRingBuf.Put | drivers/my_uart_peripheral_b/my_uart_peripheral_b.c:94-99 | stores a whole item, or nothing when there is no room |
| ItemRing.ItemRingBuf.Get | drivers/my_uart_peripheral_b/my_uart_peripheral_b.c:177-186 | takes the oldest item; takes nothing when empty or when the item is too long |
| Chunking.FeedCharacterised | drivers/my_uart_peripheral_b/my_uart_peripheral_b.c:136-164 | the buffer loop computes f if and only if f cuts the stream into chunks ended by a terminator or by a full buffer, with an unterminated, shorter rest |
| Chunking.FeedMessage | drivers/my_uart_peripheral_b/my_uart_peripheral_b.c:141-163 | L ordinary bytes and a terminator give floor(L / RX) full blocks and one line of the last L mod RX bytes and the terminator; nothing stays behind |
| NulStrings.RoundTrip | drivers/my_uart_peripheral/driver.c:48-135 | strings set and transmitted into a fresh receiver and glued together again come back up to their first NUL, so unchanged if and only if none contains a NUL, for every receive buffer size |
| NulStrings.CountersOfEveryStream | src/main_my_uart_peripheral.c:21-33 | after any received stream the strings counter is its number of NULs, the overflow counter the sum of floor(length / RX) over its messages, the unfinished one included; the last length mod RX bytes of that one wait in the buffer |
| NulStrings.ReadingUnique | drivers/my_uart_peripheral/driver.c:112-123 | a stream has at most one reading as NUL-terminated strings and a rest |
| UartDriverA.Driver.UserSetString | drivers/my_uart_peripheral/driver.c:48-54 | the string that would be transmitted is the data up to its first NUL, whatever longer string was there before |
| UartDriverA.Driver.TransmitString | drivers/my_uart_peripheral/driver.c:82-93 | transmits the current string and one NUL |
| UartDriverA.Driver.UartIntHandler | drivers/my_uart_peripheral/driver.c:101-135 | delivers, counts and keeps exactly what the framing rule says, or drops silently without a callback |
| UartDriverA.Tracker.PeripheralCallback | src/main_my_uart_peripheral.c:21-33 | adds one to the strings counter for a string, to the overflows counter otherwise |
| UartDriverA.ReceiveBursts | drivers/my_uart_peripheral/driver.c:101-135 | several interrupts do what one with all their bytes would, wherever the stream is split |
| UartDriverA.Exchange | drivers/my_uart_peripheral/driver.c:48-135 | on two drivers in place: strings set and transmitted one after the other, their bytes arriving in interrupts split anywhere, come out of a fresh receiver's callback, glued, up to their first NUL, each counted once; its buffer ends up empty |
| UartDriverA.AnyBursts | drivers/my_uart_peripheral/driver.c:101-110 | the splits into interrupts that Exchange speaks of are all there are |
| EchoSegments.SegmentsCharacterised | src/main_echo_bot.c:43-54 | the bot's cut of a stream is the only one into (any byte)(no terminators)*(terminator) segments and an unfinished rest |
| EchoSegments.MessagesAreLinesIff | src/main_echo_bot.c:43-54 | the messages are the lines of the input if and only if no terminator comes first or directly after another |
| EchoSegments.CrLfLeaksIntoNextMessage | src/main_echo_bot.c:43-54 | on CRLF input the second message begins with LF |
| EchoBot.EchoesInOrder | src/main_echo_bot.c:31-97 | in every run the completed lines are the segments without their terminators, cut to MSG_SIZE - 1 bytes, in order; one is dropped exactly when the queue is full; the output is, for each queued line first in first out, the ten bytes of Echo_xxx:, the line up to its first NUL, and CRLF |
| EchoBot.TextOfBuffer | src/main_echo_bot.c:43-48 | bytes of earlier lines behind the terminator never show |
| EchoBot.PrintUart | src/main_echo_bot.c:62-69 | prints the buffer up to its first NUL |
| EchoBot.Bot.SerialCb | src/main_echo_bot.c:31-57 | takes the receive steps of the bytes read, none when there is no update |
| EchoBot.RxBytesAre | src/main_echo_bot.c:39-41 | the input of a run is the bytes read, all of them, in order |
| EchoBot.Bot.EchoOne | src/main_echo_bot.c:92-96 | takes the print step: appends the ten bytes 69 99 104 111 95 120 120 120 58 32, the oldest queued text, 13 and 10 to the output, and removes that text from the queue |
| Lane.RunConserved | src/main_cdc_acm.c:35-70 | in every run offered bytes followed by the ring are the bytes kept, in order; each arrival keeps as many bytes as fit; the TX interrupt is on exactly since bytes were kept and the ring was not found empty, in particular while it holds bytes |
| Lane.Drains | src/main_cdc_acm.c:57-68 | without arrivals n interrupts empty a ring of up to n * max bytes in order, and the next switches the interrupt off |
| CdcAcm.EchoesWhatFits | src/main_cdc_acm.c:35-70 | in every run the received bytes that fitted on arrival, and no others, are echoed in order |
| CdcAcm.Port.SendCdcAcm | src/main_cdc_acm.c:35-45 | takes the put step; TX goes on exactly if there is a byte and room for it |
| CdcAcm.HandlerEventsAre | src/main_cdc_acm.c:47-70 | for any number of passes the steps of a call are, pass by pass and by position, one put for each byte read, of that byte, and then one take if and only if the FIFO is ready; there are no others |
| CdcAcm.Port.InterruptHandler | src/main_cdc_acm.c:47-70 | a call takes exactly those steps: all bytes of its passes arrive, in order, and a ring left with bytes has TX on |
| CdcAcmComposite.CrossedForwarding | src/main_cdc_acm_composite.c:44-89 | in every run what a port sends, then what waits for it, are the bytes kept of those the other port read, successful reads concatenated; losses only while a ring is full; a ring with bytes has the TX interrupt of the draining port on |
| CdcAcmComposite.Demo | src/main_cdc_acm_composite.c:44-177 | and so do the two peers in place, from their setup through any interrupts |
| CdcAcmComposite.FillsPut | src/main_cdc_acm_composite.c:51-61 | a handler call puts into the ring of its port the bytes of its successful reads, all of them, in order |
| CdcAcmComposite.DrainsTake | src/main_cdc_acm_composite.c:75-87 | and takes from the other ring exactly once for each time the FIFO is ready |
| CdcAcmComposite.InterruptHandler | src/main_cdc_acm_composite.c:44-89 | a handler call takes those steps on the two rings and does nothing else to either; all bytes read arrive; each ring left with bytes keeps the TX interrupt of the port that drains it on |
| CdcAcmComposite.Wire | src/main_cdc_acm_composite.c:166-177 | the setup crosses the two peers and leaves both rings empty |
| DumbHttp.StopsAtFirstOddEnd | src/socket_dumb_http.c:107-117 | for every stream: the scanner stops at n exactly when the first CRLFCRLF that opens with an odd number of CRs ends at n |
| DumbHttp.FindsFirstEndIff | src/socket_dumb_http.c:107-117 | so it stops at the first CRLFCRLF of all if and only if the run of CRs that opens it has odd length |
| DumbHttp.ExactWithoutBareCr | src/socket_dumb_http.c:107-117 | on requests in which every CR is followed by LF (no bare CR, section 2.2 of RFC 9112) the scanner stops at n exactly when the first CRLFCRLF ends at n |
| DumbHttp.StopsOnlyAtBlankLine | src/socket_dumb_http.c:107-117 | whenever the scanner stops, what it consumed ends in CRLFCRLF |
| DumbHttp.DoubledCrIsMissed | src/socket_dumb_http.c:107-117 | CR CR LF CR LF is read past |
| DumbHttp.DiscardRequest | src/socket_dumb_http.c:89-118 | the loop reads on while no blank line was scanned and tells an ended request from a lost client; outcome and bytes consumed are those of the reference reading |
| DumbHttp.RetryIgnored | src/socket_dumb_http.c:98-101 | one EAGAIN or EINTR more or less, at any point and in any scanner state, changes neither the outcome nor the bytes consumed |
| DumbHttp.RetriesIgnored | src/socket_dumb_http.c:98-101 | so deleting all of them changes neither |
| DumbHttp.RequestEndsIff | src/socket_dumb_http.c:89-118 | for everything recv may return, the request is found ended if and only if the bytes received before the connection closed or failed hold a CRLFCRLF that opens with an odd number of CRs |
| DumbHttp.SendResponse | src/socket_dumb_http.c:120-131 | the bytes taken by the successful calls up to the first failure are the prefix of the content that was sent; all of it is sent unless the next call fails or is still to come |
| DumbHttp.ServeClient | src/socket_dumb_http.c:86-134 | the response goes out, whole unless the next call fails or is still to come, if and only if the bytes received hold such a blank line; otherwise nothing is sent, and the loop is still reading or the client is gone |
| Ring.RingBuf.Put | src/main_cdc_acm.c:38-41 | the circular array takes as many of the bytes as fit, in order |
| Ring.RingBuf.Get | src/main_cdc_acm.c:60-60 | the circular array gives up its oldest bytes, at most as many as asked for |

## Left out

- What the UART does with an item queued without words, whose length the handler computes below zero (TXW 255 and up): it is taken to send nothing of it.
- Sends that run past driver B's word buffer, which overwrite the stack.
- Loss behind the UART FIFO: `uart_fifo_fill` returning short is ignored (driver B) or only logged (USB demos); the theorems speak of bytes offered to the FIFO.
- The kernel's ring buffer, message queue and timer: their sources are not part of this model; the ring's full capacity is taken as usable, one header word per item.
- Interrupts that nest or race, and the time before initialisation is complete (driver B enables RX before its ring and timer exist).
- Buffers of size zero, which Kconfig allows.
- Wrap-around of driver A's `int` counters: they are taken as unbounded.
- The echo bot's greeting: output is counted from after it.
- The GPIO trigger of driver A's transmission, device readiness checks, logging, DTR handshakes, line control, USB start-up: no behaviour to prove.
- The server's socket setup, accept loop and close: only the handling of one connection is modelled.
- The I2C temperature sensor, the message-queue wrapper `src/main_app.c`, the HTTP client, DHCP events and the shell module: configuration and glue that would only add easy members.
