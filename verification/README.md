# Verified model of the brotherConnect print bridge

A Dafny model of the parts of the bridge that carry bytes, rows and jobs: the NIIMBOT wire framing,
raster encoding and print protocol, the print queue with its duplicate suppression, the Brother raster
decoder, and the discovery of NIIMBOT printers. `dafny verify dfyconfig.toml` checks the project.

| file | subject |
|---|---|
| `Bytes.dfy`, `Commands.dfy` | bytes, XOR, big-endian fields, command codes |
| `Packet.dfy`, `Parser.dfy`, `Ble.dfy` | frames, the resynchronising stream parser, MTU splitting |
| `Dither.dfy`, `Raster.dfy`, `RowPackets.dfy`, `Fit.dfy` | error diffusion, packing and run merging, row packets, label fitting |
| `EndToEnd.dfy` | a label from darkness values to the packets the printer reads |
| `Client.dfy`, `ClientProperties.dfy` | the print protocol against an arbitrary printer |
| `PrintedLabel.dfy` | the protocol and the raster encoding together |
| `Tracker.dfy`, `Dedup.dfy`, `Worker.dfy`, `Queue.dfy`, `QueueProperties.dfy`, `QueueFate.dfy` | job states, duplicate suppression, one job, the concurrent queue, what becomes of an accepted job |
| `PackBits.dfy`, `BrotherRaster.dfy` | PackBits, the Brother command stream, the cropped image |
| `Discovery.dfy` | polling, connecting and expiring printers |

How the source is represented:

- A wire byte is a number (`newtype byte`), so that lengths and 16-bit fields are plain arithmetic; a raster
  byte is a bit pattern (`bv8`), so that masks are the source's own. Row packets convert from one to the other.
- The parser, the BLE transport, the protocol client, the tracker, the dedup store and the discovery backend are
  classes whose methods update their fields as the source does; in-place grids and images are arrays. Each method
  is proved against a function or a predicate, and the theorems are about those.
- Go's `float64` is read as an exact real in `Encode` and `Fit`.
- The environment is quantified over: a link is any finite script of packets, timeouts, cancellations and write
  outcomes (a script that has run out behaves as a timeout); a driver is any function from print calls to results;
  the queue is a step relation over every interleaving of its goroutines; the dedup clock never runs backwards.

Where the code and its documentation disagree, or a promise holds only under a condition, the model follows the
code and the condition is proved exactly:

- `internal/niimbot/image.go:38` says luminance at or below the threshold prints black; the code prints black only
  strictly below it (`Raster.ThresholdIsStrict`).
- The parser resynchronises after garbage (`internal/niimbot/packet.go:65-68`), but not always on the next frame.
  Whatever the garbage and however the stream goes on, the next frame is read in its place exactly when what the
  garbage leaves in the buffer lets it through (`StreamParser.NextFrameExactly`). Once a full frame length has arrived,
  the only ways to lose it are half a head right before it and a false frame that turns out valid
  (`StreamParser.FrameIsLostExactly`); a head announcing more than has arrived only delays it
  (`StreamParser.FalseHeadHoldsBack`, `StreamParser.FalseHeadOnlyDelays`). Behind garbage without a head, the frame is
  lost exactly when the garbage ends in 0x55 (`StreamParser.ResyncExactly`).
- The bound on dithering errors holds for every image exactly when the threshold is at most 1
  (`Dithering.ErrorBoundExactly`); a larger threshold is not rejected.
- `Close` promises to wait for the workers; a second call returns at once, and may promise silence exactly when
  the queue is quiet (`QueueProperties.LaterCloseExactly`).
- Accepted is said to mean queued (`internal/queue/queue.go:74`). It does exactly when Submit did not meet a stopped
  worker (`QueueFate.AcceptedIsQueuedExactly`), and an accepted job can still be brought to its end exactly when it was
  neither dropped that way nor left in the channel of a worker that has ended; both need Close to have been called
  (`QueueFate.AcceptedCanEndExactly`).
- A job whose ID was handled must not be printed again (`internal/job/job.go:46`). It can be: a submission can be
  printed exactly when it is valid, the queue is open and no record of its printer and ID lies in the retention window
  at its check, whatever was printed before (`QueueFate.SubmissionPrintsExactly`). So a repeat was checked before the
  record was made, or after it had expired (`QueueFate.RepeatsEscapeTheWindow`), and both happen
  (`QueueFate.SameJobCanBePrintedTwice`, `QueueFate.ExpiredJobCanBePrintedAgain`).
- Only Bluetooth devices are said to expire (`internal/printer/niimbot.go:218-219`), but a printer found on a serial
  port can be dropped too, once a poll has identified it over Bluetooth as well and overwritten its record
  (`Discovery.SerialDeviceCanBeDropped`). Until then it stays (`Discovery.SerialDeviceStays`), and a known printer
  survives every silence exactly when its record is of a serial port (`Discovery.SurvivesSilenceExactly`).
- A print can succeed exactly when its row packets can be framed and, on status-polled tasks, there are at most 65535
  copies (`ClientProperties.SuccessPossibleExactly`, `ClientProperties.PrintOverCalmLink`).
- `Fit` fills the label on one axis, but drops the other one entirely exactly when it shrinks below half a pixel
  (`Fitting.AxisVanishesExactly`), and then the label is blank (`Fitting.ThinImageVanishes`). Shrinking leaves source
  pixels unsampled exactly where the scaled length was rounded down; enlarging does exactly where the last source
  pixel starts beyond the last destination pixel (`Fitting.AxisFullySampled`).

## Model

| member | source | states |
|---|---|---|
| Bytes.XorIsBitwise | internal/niimbot/packet.go:40-46 | the checksum's XOR sets a bit exactly when one operand has it |
| Bytes.FieldsAreBigEndian | internal/niimbot/image.go:149 | a 16-bit field is its high byte and then its low byte |
| Framing.ComputeChecksum | internal/niimbot/packet.go:40-46 | the loop XORs command, length and every data byte; what that makes of a frame is the next rows |
| Framing.FrameIsEven | internal/niimbot/packet.go:40-58 | a string is a packet's frame if and only if it has head, tail, length, command and data, and every bit is set in an even number of the bytes from command to checksum |
| Framing.OneByteBreaksParity | internal/niimbot/packet.go:40-46 | changing any one byte between head and tail, the length byte included, breaks that |
| Framing.ChecksumDetectsOneByte | internal/niimbot/packet.go:40-46 | the checksum is unchanged exactly when the command, or the one data byte replaced, is unchanged |
| Framing.Marshal | internal/niimbot/packet.go:49-58 | fails exactly above 255 data bytes, else yields the frame field by field |
| Framing.FrameIsUnique | internal/niimbot/packet.go:16-19 | a packet has one wire image and an image one packet |
| Framing.CapturedHeartbeat | internal/niimbot/packet.go:49-58 | a frame recorded from a printer is the model's frame |
| Framing.FramesBySize | internal/niimbot/packet.go:49-58 | the literal frames of a packet without data and of the print quantity of two copies |
| StreamParser.Parser.Next | internal/niimbot/packet.go:96-132 | the scan, the waiting conditions and the validity test agree with the step function the theorems are about |
| StreamParser.Parser.Feed | internal/niimbot/packet.go:75-91 | output and buffer are those of parsing old buffer and input as one stream; the buffer stays below 262 bytes |
| StreamParser.NextStep | internal/niimbot/packet.go:93-132 | every step that produces a packet consumes bytes of the buffer |
| StreamParser.EmittedExactlyWhenEven | internal/niimbot/packet.go:117-131 | a complete frame by head, tail and length is emitted, with its command and data bytes, if and only if the exclusive or of command, length, data and checksum is zero; else its head is skipped |
| StreamParser.ReadLoop | internal/niimbot/client.go:74-94 | reading a transport to its end delivers what feeding its chunks one by one emits, through a channel of 64 that drops its oldest packet when full, to a client that may take packets at any moment |
| StreamParser.ChannelKeepsLatest | internal/niimbot/client.go:82-91 | whenever the client takes packets, those waiting are the latest in order, and taken, waiting and dropped ones add up to all |
| StreamParser.NothingLostExactly | internal/niimbot/client.go:80-91 | no packet is lost if and only if each finds room: fewer than 64 waiting when it arrives, or the client empties the channel while the reader makes room |
| StreamParser.ParseResumes | internal/niimbot/packet.go:75-132 | parsing a prefix, then the rest after what it left over, equals parsing the whole |
| StreamParser.ChunkingInvariance | internal/niimbot/packet.go:65-91 | any cutting of any stream, garbage included, yields the packets and the buffer of the uncut stream |
| StreamParser.ParserSoundness | internal/niimbot/packet.go:75-132 | the stream is gaps, the frames of the emitted packets in order, and the residue, without overlap |
| StreamParser.ResidueIsIncomplete | internal/niimbot/packet.go:106-124 | what stays buffered is nothing, half a head, or a frame not yet complete |
| StreamParser.IncompleteWaits | internal/niimbot/packet.go:93-95 | the parser waits exactly on those buffers |
| StreamParser.WovenStreamParses | internal/niimbot/packet.go:65-68 | frames between stretches of clean garbage come back exactly, in order |
| StreamParser.NextFrameExactly | internal/niimbot/packet.go:75-132 | behind any garbage, a stream that begins with a head, however it goes on, is read from its start if and only if what the garbage leaves in the buffer lets it through |
| StreamParser.FrameIsLostExactly | internal/niimbot/packet.go:65-68 | once 262 bytes from the frame on have arrived, it is read in its place unless half a head or a valid false frame swallows its start |
| StreamParser.FrameInPlaceParses | internal/niimbot/packet.go:75-132 | a frame read in its place comes out, followed by exactly what the rest of the stream holds |
| StreamParser.NextFrameByResidue | internal/niimbot/packet.go:97-131 | for a stream that begins with a frame and goes on in any way, by what any garbage leaves over: nothing, and the frame comes next; half a head, and it is not read; too long an announcement, and all is held back; a valid false frame, and that one comes out instead; else the same question for what follows the rejected head |
| StreamParser.FalseHeadHoldsBack | internal/niimbot/packet.go:117-124 | garbage not ending in 0x55 that announces a long frame holds back any frame of up to 250 data bytes |
| StreamParser.FalseHeadOnlyDelays | internal/niimbot/packet.go:125-128 | and the frame comes out when the announced length has arrived without a tail byte at its end |
| StreamParser.ResyncExactly | internal/niimbot/packet.go:97-115 | after garbage that contains no head the frame is read in its place, however the stream goes on, if and only if the garbage does not end in 0x55 |
| StreamParser.CorruptFrameIsSkipped | internal/niimbot/packet.go:125-128 | a complete frame with a bad checksum or tail costs its head; however the stream goes on, the next frame comes next if the bytes between are clean, and is read in its place if and only if what they leave over lets it through |
| StreamParser.OneByteErrorIsRejected | internal/niimbot/packet.go:125-128 | changing any byte of a frame outside head and length makes the parser skip its head |
| Ble.BLETransport.Write | internal/niimbot/ble.go:194-207 | the fragments accepted are those before the first refusal; success sends all; cancellation is reported after sending |
| Ble.FragmentsRejoin | internal/niimbot/ble.go:191-207 | the fragments join to the packet, none is empty or over the MTU, and all but the last are full |
| Dithering.ScatterIsGather | internal/niimbot/image.go:73-98 | the in-place scatter gives each pixel its own darkness plus 7, 3, 5 and 1 sixteenths of four neighbours' errors |
| Dithering.DitherErrorBound | internal/niimbot/image.go:80-98 | every diffused error lies between minus the threshold and one minus the threshold |
| Dithering.ErrorBoundExactly | internal/niimbot/image.go:37-41 | that bound holds for all images if and only if the threshold is at most 1 |
| Dithering.DarknessIsConserved | internal/niimbot/image.go:80-98 | darkness in minus black pixels out is exactly the error discarded at the left, right and bottom edges |
| Dithering.UnditheredIsInput | internal/niimbot/image.go:80 | without dithering the grid is never changed |
| Raster.ThresholdIsStrict | internal/niimbot/image.go:74-75 | without dithering a pixel is black exactly when its luminance is strictly below the threshold |
| Raster.DiffuseInPlace | internal/niimbot/image.go:86-97 | the four guarded array updates are the diffusion step |
| Raster.EncodeRow | internal/niimbot/image.go:70-102 | a row's bits and black count are those of the scan, and the grid is left ready for the next row |
| Raster.LineShowsBitmap | internal/niimbot/image.go:75-79 | a packed row shows exactly the black pixels, most significant bit first, and white padding |
| Raster.Encode | internal/niimbot/image.go:46-114 | rows as given and the width padded to less than a byte more; the runs paint, and nothing else in the padded image, the pixels over one minus the threshold, one half unless a positive one is given, of the darkness itself or, when dithering, of the darkness with 7, 3, 5 and 1 sixteenths of four neighbours' errors |
| Raster.JobBinarises | internal/niimbot/image.go:50-98 | the options' threshold and dithering are the ones the bitmap is binarised with |
| Raster.FirstPixelIsTopBit | internal/niimbot/image.go:77 | pixel k of a raster byte is bit 7 - k |
| Raster.AbsorbTiles | internal/niimbot/image.go:103-111 | adding a row to a greedy tiling of the rows so far gives a greedy tiling of one row more |
| Raster.MergeTiles | internal/niimbot/image.go:103-111 | the runs cut the rows into consecutive blocks of 1 to 255 identical rows, each stopping only when full or different |
| Raster.GreedyStaysAhead | internal/niimbot/image.go:103-111 | after equally many runs the merge has covered at least as much as any tiling |
| Raster.MergeIsOptimal | internal/niimbot/image.go:103-111 | no tiling into identical blocks of at most 255 rows has fewer runs |
| Raster.Image | internal/niimbot/image.go:282-304 | a pixel of the preview is black exactly when some run paints it |
| Raster.MergedRunsPaintBitmap | internal/niimbot/image.go:280-304 | the runs of an encoded image paint exactly its bitmap |
| RowEncoding.PopCount | internal/niimbot/image.go:186-192 | clearing lowest bits counts the set bits |
| RowEncoding.PixelCounts | internal/niimbot/image.go:168-184 | per third of the head in split mode, each capped at 255, else the 16-bit total |
| RowEncoding.CountsTellTheInk | internal/niimbot/image.go:128-138 | the header of an encoded row adds up to its number of black pixels if and only if no third holds more than 255, in total mode if and only if they are below 65536 |
| RowEncoding.CountsCoverColumns | internal/niimbot/image.go:168-184 | the three counts are the black pixels of the left, middle and right third of the head, each stopping at 255, or zero and the 16-bit total with its low byte first |
| RowEncoding.RowPackets | internal/niimbot/image.go:144-165 | one packet per run, then the check lines due, for any encoded image |
| RowEncoding.RowPacketLayout | internal/niimbot/image.go:144-165 | the bytes of blank-row, bitmap-row and check-line packets: command, big-endian row, counts, repeat, bits, marker byte |
| RowEncoding.RowPacketShowsRun | internal/niimbot/image.go:148-156 | index, repeat and bits read back from a row packet paint what the run paints |
| RowEncoding.PacketsPaintRuns | internal/niimbot/image.go:140-165 | the whole packet list paints exactly what the runs paint, with or without check lines |
| RowEncoding.MarkersFollowTheirRuns | internal/niimbot/image.go:157-162 | each run's packet is followed by the markers of exactly the block ends it covers |
| RowEncoding.CheckLinesOfImage | internal/niimbot/image.go:142-163 | the markers are rows 199, 399, ... up to the last full block of 200, each once and increasing |
| EndToEnd.LabelFitsExactly | internal/niimbot/packet.go:49-52 | all packets of a label can be framed if and only if a row packet fits 255 bytes or the label is blank |
| EndToEnd.WireParses | internal/niimbot/packet.go:65-132 | back-to-back frames parse to their packets with an empty buffer |
| EndToEnd.LabelArrives | internal/niimbot/image.go:140-165 | from any chunks of the label's frames the receiver gets exactly the packets, an empty buffer, and the bitmap the preview shows |
| EndToEnd.LabelFeedsAllRows | internal/niimbot/image.go:140-165 | blank rows included, the repeats add up to the number of rows |
| EndToEnd.Loopback | internal/niimbot/ble.go:191-207 | encode, packetise, marshal, write and feed through the methods: no failure, nothing left buffered, all rows, and the bitmap binarised from the given darkness with the given options |
| Fitting.LabelSize | internal/niimbot/image.go:200-213 | an accepted label is 8 to headPixels wide and at least one row long |
| Fitting.LabelSizeExactly | internal/niimbot/image.go:200-213 | millimetres at 25.4 to the inch, rounded to the nearest pixel and cut to the head; errors exactly for nonpositive or too small sizes |
| Fitting.TurningMaximisesScale | internal/niimbot/image.go:194-219 | the rotation rule picks the orientation with the larger scale |
| Fitting.FourTurnsAreIdentity | internal/niimbot/image.go:268-278 | four quarter turns give back every pixel |
| Fitting.OrientedPixel | internal/niimbot/image.go:214-219 | a source of the other orientation is turned clockwise: pixel (x, y) reads (y, h - 1 - x) |
| Fitting.ScaledRectangleFits | internal/niimbot/image.go:220-227 | the scaled rectangle lies inside the label and touches it on an axis, before and after rounding |
| Fitting.AxisVanishesExactly | internal/niimbot/image.go:224-225 | an axis keeps no pixel exactly when it shrinks below half of one |
| Fitting.VanishedSourceIsBlank | internal/niimbot/image.go:231-264 | when an axis keeps no pixel, the whole label stays white |
| Fitting.ThinImageVanishes | internal/niimbot/image.go:200-266 | a 1 x 1000 image fitted to an 8 x 100 label comes out all white |
| Fitting.WindowStartsInside | internal/niimbot/image.go:234-260 | every window starts inside the source and is nonempty, so no average is over nothing |
| Fitting.WindowSpans | internal/niimbot/image.go:224-252 | scaled lengths are rounded to the nearest; a window runs from the pixel at x / s to the one at (x + 1) / s, at least one |
| Fitting.WindowsAreContiguous | internal/niimbot/image.go:235-252 | when shrinking, each window ends where the next begins |
| Fitting.WindowsTile | internal/niimbot/image.go:235-252 | when shrinking, windows are disjoint and cover exactly a prefix of the axis |
| Fitting.WindowsAreSinglePixels | internal/niimbot/image.go:235-252 | when enlarging, each window is one pixel |
| Fitting.AxisFullySampled | internal/niimbot/image.go:224-252 | every source pixel of an axis lies in some window if and only if, shrinking, the scaled length was not rounded down and, enlarging, the last source pixel starts by the last destination pixel |
| Fitting.RoundedDownYetSampled | internal/niimbot/image.go:224-252 | enlarged to a rounded-down length, three pixels are all sampled |
| Fitting.RoundedDownAndSkipped | internal/niimbot/image.go:224-252 | shrunk to a rounded-down length, the last of nine pixels is skipped |
| Fitting.MeanIsBetween | internal/niimbot/image.go:253-262 | a pixel lies between the extremes of its window |
| Fitting.WindowPixelsCountEqually | internal/niimbot/image.go:253-262 | each pixel of the clipped window counts one part of its area towards the mean, and no other pixel counts |
| Fitting.LabelPixels | internal/niimbot/image.go:226-264 | the rectangle is centred and the rest white; a byte inside is at most 255 times the lightest and over 255 times the darkest of its window less one |
| Fitting.UniformSource | internal/niimbot/image.go:253-264 | a source of one value c gives 255 c rounded down in the whole rectangle, a white source a white label |
| Fitting.SampleWindow | internal/niimbot/image.go:253-264 | the two inner loops sum and count the window clipped to the source |
| Fitting.Fit | internal/niimbot/image.go:200-266 | fails exactly on bad dimensions; else white except the centred rectangle of window means |
| NiimbotClient.AwaitTakesFirstDecisive | internal/niimbot/client.go:133-167 | a request is answered by the first inbound event that is not an unsolicited packet |
| NiimbotClient.AwaitFailsOnErrorReply | internal/niimbot/client.go:146-155 | an error reply before any accepted one fails the request with its code |
| NiimbotClient.AwaitEndsWithoutReply | internal/niimbot/client.go:158-164 | timeout, cancellation and a closed link each end it with their own error |
| NiimbotClient.DrainedExactly | internal/niimbot/client.go:120-131 | draining removes the packets already arrived, up to the number that had, and nothing else |
| NiimbotClient.Client.Send | internal/niimbot/client.go:102-118 | a packet too long attempts nothing; otherwise one write is attempted, which may be cancelled while waiting its turn, and its outcome returned |
| NiimbotClient.Client.Drain | internal/niimbot/client.go:120-131 | packets that had already arrived are discarded, and nothing else |
| NiimbotClient.Client.AwaitReply | internal/niimbot/client.go:133-167 | error replies, timeouts, cancellation and a closed link become errors; other packets are skipped |
| NiimbotClient.Client.Request | internal/niimbot/client.go:184-199 | one write, and a reply that was accepted after the drain, or an error; an answer waiting on a calm link is returned |
| NiimbotClient.Client.SendRows | internal/niimbot/client.go:524-543 | all row packets in order, then PageEnd and its acknowledgement, or a prefix and a failed step |
| NiimbotClient.Client.Status | internal/niimbot/client.go:425-439 | from the reply's bytes: under four is an error; page count from the first two, progress from the next, error from the seventh if there is one |
| NiimbotClient.Client.WaitByStatus | internal/niimbot/client.go:545-567 | every report but the last is healthy and of too few pages; the last one, if too short or with an error, is returned as that error, and success exactly if it is healthy and of enough pages |
| NiimbotClient.Client.WaitByEnd | internal/niimbot/client.go:646-659 | returns success exactly after negative PrintEnd replies and one positive |
| NiimbotClient.Client.PrintB1 | internal/niimbot/client.go:571-595 | the trace is the whole B1 script, or a beginning of it with one failed step |
| NiimbotClient.Client.PrintD110 | internal/niimbot/client.go:597-625 | the same for the D110 script |
| NiimbotClient.Client.PrintB21V1 | internal/niimbot/client.go:627-660 | the same for the legacy script, one page per copy |
| NiimbotClient.Client.Print | internal/niimbot/client.go:468-509 | a rejected image writes nothing; success is a complete run; failure is a broken-off run, the error that its last entry explains, and then the reset; over a calm link to a confirming printer it succeeds |
| NiimbotClient.AcceptedExactly | internal/niimbot/client.go:470-475 | an image is accepted if and only if it is no wider than the head and has 1 to 65535 rows |
| NiimbotClient.EffectiveOptions | internal/niimbot/client.go:476-485 | the density is clamped to the model's range, and zero density, label type and copies mean the defaults |
| ClientProperties.SuccessWritesGrammar | internal/niimbot/client.go:468-509 | a successful print wrote exactly its command grammar with at least one poll |
| ClientProperties.BreakOffWritesPrefix | internal/niimbot/client.go:468-509 | a failed print wrote a prefix of the grammar |
| ClientProperties.ResetWrites | internal/niimbot/client.go:491-499 | the reset attempts PrintEnd and then CancelPrint, once each |
| ClientProperties.LastPollSaysDone | internal/niimbot/client.go:545-567 | the last reply reports completion and every earlier one does not |
| ClientProperties.SuccessPossibleExactly | internal/niimbot/client.go:434 | some printer lets a task succeed if and only if its rows can be framed and, when polled by status, the copies fit 16 bits |
| ClientProperties.PrintOverCalmLink | internal/niimbot/client.go:468-509 | over a calm link to a confirming printer, Print succeeds if and only if the image is accepted, its rows can be framed and the copies can be counted |
| ClientProperties.SuccessWasReported | internal/niimbot/client.go:425-439 | in a status-polled success every status request was followed by a report of at least four bytes without error, the last one of enough pages |
| ClientProperties.SuccessWasConfirmed | internal/niimbot/client.go:646-659 | a success polled by PrintEnd ended with a PrintEnd reply whose first byte is not zero |
| ClientProperties.TaskCommands | docs/niimbot.md:164-183 | the command bytes of each print sequence, with all row packets in order |
| ClientProperties.RequestsAwaitTheirReplies | internal/niimbot/client.go:513-522 | each request waits for the reply code of its own command, row packets for none |
| PrintedLabel.PrintedIsBitmap | internal/niimbot/client.go:468-509 | what a successful print wrote, read in any chunks, is packets whose image data is the page once, or once per copy for the legacy task; the page has all rows and shows exactly the binarised bitmap |
| PrintedLabel.PrintImage | internal/niimbot/client.go:468-509 | the same through Encode and Print themselves, for the bitmap binarised from the given darkness with the given options |
| JobState.TerminalIsDeadEnd | internal/job/state.go:18-35 | a state is terminal exactly when the table allows no move from it |
| JobState.MovesExactly | internal/job/state.go:18-25 | one step along the main line, failing before the end, and cancelling before printing; no other move |
| JobState.Tracker.To | internal/job/state.go:73-91 | a move succeeds exactly when allowed and, for a failure, explained; otherwise nothing changes |
| JobState.MoveRecords | internal/job/state.go:73-91 | a move is recorded with its states, time and reason; an illegal or unexplained one is refused by name |
| JobState.PathIsShort | internal/job/state.go:18-25 | a history has at most four moves |
| JobState.HistoryIsAlwaysAPath | internal/job/state.go:73-91 | after any calls the history is a path from created, only ever extended, and a terminal state is final |
| Dedup.DedupStore.constructor | internal/queue/dedup.go:26-38 | a nonpositive retention means seven days |
| Dedup.SuppressesUntil | internal/queue/dedup.go:26-79 | through the store itself: a record suppresses up to its retention inclusive, 604800 seconds by default |
| Dedup.DedupStore.SeenRecently | internal/queue/dedup.go:40-52 | answers exactly whether the full log holds a record within retention, and forgets the rest |
| Dedup.DedupStore.Record | internal/queue/dedup.go:54-64 | appends to the log |
| Dedup.PrunePrinters | internal/queue/dedup.go:66-79 | keeps exactly the entries not older than the cutoff and no empty printer |
| Dedup.StoreAnswersFromLog | internal/queue/dedup.go:40-79 | the pruned map answers every query as the log would, now and after |
| Dedup.NotingReflects | internal/queue/dedup.go:54-64 | recording keeps the map a faithful digest of the log |
| PrintWorker.ValidExactly | internal/job/job.go:69-85 | a job is valid if and only if every required field has a usable value |
| PrintWorker.ReasonsTellConditions | internal/queue/worker.go:104-125 | out of media, open cover, wrong media, offline and not connected each have their own reason |
| PrintWorker.Worker.Announce | internal/queue/worker.go:62-74 | three legal transitions are reported; the early returns are never taken |
| PrintWorker.Worker.Process | internal/queue/worker.go:48-100 | the events are one complete lifecycle for the driver's behaviour, and one dedup record follows |
| PrintWorker.LifecycleReports | internal/queue/worker.go:48-100 | queued, sent, printing, then completed after all copies or failed with a reason after the first failing one |
| PrintWorker.LifecycleReportsMoves | internal/queue/worker.go:48-100 | the reports in order with the states they leave and enter, and print calls in between |
| PrintQueue.StepKeepsInv | internal/queue/worker.go:24-46 | every atomic step of every goroutine keeps the queue's invariant |
| PrintQueue.WorkKeepsLane | internal/queue/worker.go:37-46 | a worker's steps keep its order and its trace |
| QueueProperties.SequentialPerPrinter | internal/queue/queue.go:33 | in every run a printer's finished, current and waiting jobs are those sent, in order, and its events are their lifecycles one after another |
| QueueProperties.ClosedIsSilent | internal/queue/queue.go:110-123 | once the first Close has returned, no run adds a report or a print |
| QueueProperties.LaterCloseExactly | internal/queue/queue.go:112-116 | a Close that finds the queue closed changes nothing, and silence follows if and only if the queue is quiet |
| QueueProperties.SecondCloseMayReturnEarly | internal/queue/queue.go:112-116 | a reachable closed queue that is not quiet |
| QueueProperties.SuppressedExactlyWhenRecorded | internal/queue/queue.go:83-92 | in every run a valid submission is a duplicate if and only if a record of it is in the window; records are the finished jobs |
| QueueProperties.AdmittedWereClear | internal/queue/queue.go:85-107 | every job on a channel was valid and unrecorded in its window when checked |
| QueueFate.StepAccounted | internal/queue/queue.go:85-107 | every step keeps account: jobs on a channel come from distinct accepted submissions, and an accepted job was put there unless it was dropped |
| QueueFate.DropExactly | internal/queue/worker.go:26-31 | a routed submission can meet a stopped worker if and only if Close has been called |
| QueueFate.SendExactly | internal/queue/worker.go:26-31 | a routed job joins the end of its channel if and only if fewer than 64 jobs wait |
| QueueFate.RecordExactly | internal/queue/worker.go:93-99 | a finished job is recorded for its printer and ID at the time it finishes |
| QueueFate.AcceptedIsQueuedExactly | internal/queue/queue.go:73-75 | in every run, an accepted job was put on its channel if and only if Submit did not meet a stopped worker, which needs Close |
| QueueFate.AcceptedCanEndExactly | internal/queue/queue.go:73-75 | from every reachable state, some continuation finishes an accepted job if and only if it was neither dropped nor left with an ended worker; both need Close |
| QueueFate.LostForGood | internal/queue/worker.go:37-46 | no continuation finishes a job that was dropped or left with an ended worker |
| QueueFate.CanFinish | internal/queue/worker.go:37-100 | a worker that has not ended can finish every job sent to it, in order, printed |
| QueueFate.AcceptedCanBeDropped | internal/queue/worker.go:26-31 | a run that accepts a job and drops it |
| QueueFate.AcceptedCanBeStranded | internal/queue/worker.go:37-42 | a run that accepts a job and ends its worker with the job in the channel |
| QueueFate.SubmissionPrintsExactly | internal/queue/queue.go:85-107 | from every reachable state, some continuation prints a fresh submission if and only if it is valid, the queue is open and no record of it lies in the window |
| QueueFate.RepeatsEscapeTheWindow | internal/job/job.go:46 | a job given the ID of one finished before was checked before that one's record was made, or after it had left the window |
| QueueFate.SameJobCanBeSentTwice | internal/queue/worker.go:93-99 | suppression starts at the record: a run that enqueues one job twice |
| QueueFate.SameJobCanBePrintedTwice | internal/queue/worker.go:93-99 | a run that prints a job again after its record was made, because it was checked before |
| QueueFate.ExpiredJobCanBePrintedAgain | internal/queue/dedup.go:42-52 | a run that prints a job again that was checked with its expired record in the log |
| PackBits.PackbitsDecode | internal/printer/render.go:191-214 | the loop expands headers until enough bytes are there |
| PackBits.UnpackBound | internal/printer/render.go:191-214 | arbitrary input exceeds the expected length by at most 127 bytes |
| PackBits.PackBitsInverts | internal/printer/render.go:191-214 | every valid encoding under section 9 of TIFF 6.0 is inverted |
| PackBits.UnpackEncoding | internal/printer/render.go:191-214 | a longer encoding yields its first segments, whole, up to the expected length |
| BrotherRaster.DecodeRows | internal/printer/render.go:110-157 | the command walk yields the rows of the stream function, for any bytes |
| BrotherRaster.CommandDecodes | internal/printer/render.go:115-152 | one well-formed command yields its intended rows, mode change and nothing else |
| BrotherRaster.StreamDecodes | internal/printer/render.go:105-158 | every well-formed command stream decodes to exactly the intended 90-byte rows |
| BrotherRaster.ShortRowsAreZeroFilled | internal/printer/render.go:126-146 | a blank line is 90 zero bytes, and a short row is filled up with them |
| BrotherRaster.ModeSelects | internal/printer/render.go:119-146 | rows are unpacked after mode 2 and taken as they are after any other |
| BrotherRaster.UnknownCommandsAreSkipped | internal/printer/render.go:147-187 | other bytes and escapes are skipped with their length |
| BrotherRaster.TruncatedRowEndsStream | internal/printer/render.go:129-138 | a row cut short ends the stream |
| BrotherRaster.InkIsMirrored | internal/printer/render.go:224-229 | bit k of byte b of a row is image column 719 - 8b - k |
| BrotherRaster.FindBox | internal/printer/render.go:223-247 | the running extrema are the tight bounding box of the ink |
| BrotherRaster.RasterRowsToImage | internal/printer/render.go:216-269 | the image is the widened box, its black pixels the mirrored ink moved to the corner; white when there is none |
| BrotherRaster.CropIsTight | internal/printer/render.go:254-258 | the crop holds all ink and each side is exactly 8 from the ink, or at the limit with ink within 8 of it |
| BrotherRaster.InkIsConserved | internal/printer/render.go:260-267 | the image has exactly as many black pixels as the rows, translated |
| BrotherRaster.DecodeBrotherRaster | internal/printer/render.go:105-158 | fails exactly on a stream without rows; rows without ink give the whole head, white |
| Discovery.ProbeOutcome | internal/printer/niimbot.go:174-216 | what one probe adds to the seen addresses, the devices and the events |
| Discovery.AbsentDeviceExpires | internal/printer/niimbot.go:222-234 | a Bluetooth device that stays away is dropped exactly when its missed polls reach MissedScans |
| Discovery.SerialDeviceStays | internal/printer/niimbot.go:174-234 | a printer known on a serial port stays known on one, whatever its ports answer, as long as no poll identifies it over Bluetooth |
| Discovery.SerialDeviceCanBeDropped | internal/printer/niimbot.go:196-234 | for every MissedScans, a run in which a Bluetooth identification overwrites the serial record and silence then drops the printer |
| Discovery.SurvivesSilenceExactly | internal/printer/niimbot.go:222-234 | a known printer survives every silence if and only if its record is of a serial port |
| Discovery.RoundIgnoresStatus | internal/printer/niimbot.go:218-234 | who is dropped does not depend on cached statuses |
| Discovery.ExpiryTracks | internal/printer/niimbot.go:218-234 | expiry keeps each counter equal to the polls since last seen, below the limit |
| Discovery.Backend.KnownByAddress | internal/printer/niimbot.go:251-260 | finds an address exactly when some device has it |
| Discovery.Backend.SetStatus | internal/printer/niimbot.go:270-286 | changes only the status and its time, and reports only changes |
| Discovery.Backend.Look | internal/printer/niimbot.go:174-216 | the probing loops connect what is new and collect what was seen |
| Discovery.Backend.Expire | internal/printer/niimbot.go:218-239 | each dropped device is reported once, in any order, and exactly the kept devices whose status is due are listed, each once |
| Discovery.Backend.Refresh | internal/printer/niimbot.go:241-249 | each listed device that answers takes the new status and time, and exactly the changed ones are reported |
| Discovery.Backend.Poll | internal/printer/niimbot.go:165-249 | replaying the events gives the known devices, counters are right, exactly the devices too long away go, and of those left exactly the due ones that answer are refreshed, a changed status being reported once |

## Left out

- BLE scanning and connecting, serial ports, WebSocket, HTTP, the web page, the CLI, launchd, keyring and files: foreign calls and plumbing.
- CUPS and system_profiler parsing: their truth is another tool's output.
- PDF, PNG, JPEG and GIF handling, colour conversion and compositing: `Encode` starts from darkness values, `Fit` from a pixel function.
- Floating-point rounding in `Encode` and `Fit`.
- `Fit` treats its three colour channels alike; the model has one.
- `rotate90` is a function on pixel functions, not a loop filling an image; aliasing of images is not modelled.
- Timers and pacing: a timeout or a cancelled wait is an outcome of the environment. Unbounded waits on a link that never stops sending unrelated packets are not modelled.
- The queue is a step relation on values: goroutines, mutexes and channels are atomic steps, not heap objects, and a Print call is one step that ends with its result.
- NiimbotClient.Client.Print: does not model the progress callback or the wrapped error texts.
- Discovery.Backend.Poll: does not model cancellation, which may drop events, nor clock readings that differ within one poll.
- JobState.Tracker.To: the history is a value, so `History`'s defensive copy has no counterpart.
- Device-code enrolment, USB map diffing, backoff, the recent-jobs ring, driver routing, model tables, heartbeat fields and configuration: small, and independent of what is modelled.
