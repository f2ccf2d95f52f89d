# Smoothie network command bridge and small parsers, in Dafny

This project models the part of the Smoothie firmware that takes commands
from the network and hands them to the rest of the firmware, together with
the small parsers and encoders around it:

- the Telnet line server (`telnetd.c`) and its command shell (`shell.cpp`):
  the fixed table of outgoing lines, segment packing below the MSS, the
  line assembler, the Telnet option sub-machine (the command codes of
  RFC 854 with the refusal rules of RFC 855, plus the private prompt
  option 0x55), flow control on the command queue, and the command table;
- the Simple File Transfer handler (`sftpd.cpp`), the USER, KILL, DONE,
  STOR and SIZE commands of RFC 913, with its raw download state;
- the web server (`httpd.c`): request line and headers (a subset of
  sections 3.1.1 and 3.3.2 of RFC 7230), the WAITING, HEADERS, BODY,
  UPLOAD and OUTPUT states, the result fifo, file chunking, content types
  and the poll timeout; and its script interface (`httpd-cgi.c`: `itoa`
  and the script table);
- the command bridge: `CommandQueue` (the FIFO of commands tagged with the
  id of the stream their output goes to, and the map from ids to
  streams), `CallbackStream`, `NetworkStream` and `EthernetStream`;
- the configuration decisions of `Network.cpp`: `parse_ip_str`, the MAC
  and IP choices at start-up, the server chosen for a port and the
  main-loop hand-over of telnet commands;
- the G-code word parser of `Gcode.cpp`, the console command layer of
  `SimpleShell.cpp`, the SPI protocol of the `UniversalAdapter` panel and
  the status-light state machine of `LedRing.cpp`.

Each source file that changes state in place is modelled twice: a module
`XSpec` gives the meaning of each operation as a function on a value, and
a class (or a method) in module `X` changes fields in place and is proved
to leave exactly the state that function gives. The lemmas of the spec
modules state what the source promises about those functions: round
trips, invariants every event keeps, FIFO order, the exact bytes sent.

Everything outside the firmware's own logic is an input: the uIP stack's
events and the bytes it delivers, file-system results, callback answers,
SPI replies, the busy pin, the microsecond clock, temperature readings,
`get_checksum`, `strtof`. Each becomes a parameter of the operation that
uses it.

## Model

| member | source | states |
|---|---|---|
| CommandQueueSpec.InitMapsNull | src/libs/Network/uip/CommandQueue.cpp:15-19 | a new queue is empty and maps only id 0, to the null stream |
| CommandQueueSpec.AddAppends | src/libs/Network/uip/CommandQueue.cpp:41-46 | `add` appends exactly one command (its text and its id cut to 8 bits) behind the queued ones, returns the new size and leaves the stream map alone |
| CommandQueueSpec.IdWraps | src/libs/Network/uip/CommandQueue.cpp:43 | ids that differ by a multiple of 256 queue the same command (the `uint8_t` cast) |
| CommandQueueSpec.PopEmpty | src/libs/Network/uip/CommandQueue.cpp:51 | `pop` on an empty queue returns false and changes nothing |
| CommandQueueSpec.PopFifo | src/libs/Network/uip/CommandQueue.cpp:49-65 | `pop` removes the oldest command, hands its text to the console event with the stream registered for its id, then sends that stream the end marker, and returns true |
| CommandQueueSpec.RegisterOnly | src/libs/Network/uip/CommandQueue.cpp:67-70 | `registerCallback` binds the id to a new callback stream and leaves every other id, the queue and the event log unchanged |
| CommandQueueSpec.PopsInOrder | src/libs/Network/uip/CommandQueue.cpp:49-65 | `n` pops dispatch the first `n` commands in queue order and leave the rest queued |
| CommandQueueSpec.AddAllQueues | src/libs/Network/uip/CommandQueue.cpp:41-46 | a run of adds appends all commands in call order |
| CommandQueueSpec.AddThenDrain | src/libs/Network/uip/CommandQueue.cpp:41-65 | commands added to an empty queue and then all popped are dispatched in the order they were added, each to the stream of its id, and the queue ends empty |
| CommandQueues.CommandQueue.constructor | src/libs/Network/uip/CommandQueue.cpp:15-19 | the new object is the empty queue with id 0 mapped to the null stream |
| CommandQueues.CommandQueue.Size | src/libs/Network/uip/CommandQueue.h:21 | the number of queued commands |
| CommandQueues.CommandQueue.Add | src/libs/Network/uip/CommandQueue.cpp:41-46 | the new state and the returned size are those of `CommandQueueSpec.Add` |
| CommandQueues.CommandQueue.Pop | src/libs/Network/uip/CommandQueue.cpp:49-65 | the new state and the result are those of `CommandQueueSpec.Pop` |
| CommandQueues.CommandQueue.RegisterCallback | src/libs/Network/uip/CommandQueue.cpp:67-70 | the new state is that of `CommandQueueSpec.Register` |
| StreamSpec.RetryUntilAnswer | src/libs/Network/uip/CallbackStream.cpp:12-28 | a string is offered to the callback again after every 0 answer, with an idle call in between, until an answer that is not 0; `puts` then returns the string's length, and an answer of -1 closes the stream |
| StreamSpec.ClosedIsSticky | src/libs/Network/uip/CallbackStream.cpp:6 | a closed stream never calls the callback and `puts` returns 0 |
| StreamSpec.CloseThenSilent | src/libs/Network/uip/CallbackStream.cpp:17-19 | after the callback answers -1 the stream is closed and a later `puts` calls nothing |
| StreamSpec.MarkerOnce | src/libs/Network/uip/CallbackStream.cpp:8-10 | the end marker `NULL` is passed to the callback exactly once, with no retry, and its answer is returned (`CallbackStream` and `NetworkStream` alike) |
| StreamSpec.NetworkIsCallbackWithoutClose | src/libs/Network/uip/NetworkStream.cpp:8-28 | `NetworkStream::puts` makes the same calls and returns the same value as `CallbackStream::puts` on an open stream, but -1 never closes it |
| StreamSpec.PutsReturnsLength | src/libs/Network/uip/CallbackStream.cpp:4-29 | on an open stream `puts` returns the string's length and makes one more callback call than idle calls; on a closed one it returns 0 |
| CallbackStreams.CallbackStream.constructor | src/libs/Network/uip/CallbackStream.h:10-11 | a new stream is open (the flag is not set by the constructors shown; the model starts it false) |
| CallbackStreams.CallbackStream.Puts | src/libs/Network/uip/CallbackStream.cpp:4-29 | the result, the callback and idle calls and the new closed flag are those of `StreamSpec.CallbackPuts` on the old flag |
| NetworkStreams.Puts | src/libs/Network/uip/NetworkStream.cpp:8-28 | the result and the callback and idle calls are those of `StreamSpec.NetworkPuts` |
| EthernetStreams.EthernetStream.constructor | src/libs/Network/EthernetStream.cpp:6-8 | a new stream has nothing to send |
| EthernetStreams.EthernetStream.Puts | src/libs/Network/EthernetStream.cpp:10-14 | `puts` appends the whole string to the pending output and returns its length |
| EthernetStreams.PutsAccumulate | src/libs/Network/EthernetStream.cpp:10-14 | a run of `puts` leaves the pending output equal to the old one followed by the strings in order |
| TelnetdSpec.FirstEmpty | src/libs/Network/uip/telnetd/telnetd.c:89-94 | the slot `sendline` scans to: every slot before it is occupied and it is empty, or it is the table size |
| TelnetdSpec.SendLineLowestEmpty | src/libs/Network/uip/telnetd/telnetd.c:84-98 | `sendline` stores the line in the lowest empty slot and changes no other slot; on a full table the line is dropped and the table is unchanged |
| TelnetdSpec.SendLineAppends | src/libs/Network/uip/telnetd/telnetd.c:84-98 | on a packed table (no line after an empty slot) `sendline` appends the line to the queue and uses one free slot, or drops it when none is free; the table stays packed |
| TelnetdSpec.SendLinesAppend | src/libs/Network/uip/telnetd/telnetd.c:84-98 | successive `sendline` calls keep the table packed and, with enough free slots, append the lines in call order |
| TelnetdSpec.AckedRemovesFront | src/libs/Network/uip/telnetd/telnetd.c:171-184 | `acked` removes exactly the first `numsent` queued lines, keeps the rest in order and frees that many slots |
| TelnetdSpec.ShiftAcked | src/libs/Network/uip/telnetd/telnetd.c:176-183 | one turn of the shift loop of `acked` drops one more line from the front and empties one more slot at the end |
| TelnetdSpec.PackCountSound | src/libs/Network/uip/telnetd/telnetd.c:196-206 | `senddata` packs whole lines from slot 0 in order, their total stays below the segment size, and it stops only at an empty slot, the table end or a line that would not fit |
| TelnetdSpec.PackStep | src/libs/Network/uip/telnetd/telnetd.c:196-206 | one turn of the packing loop of `senddata`: a line that fits is taken and the byte count grows by its length; one that does not ends the loop |
| TelnetdSpec.SegmentFits | src/libs/Network/uip/telnetd/telnetd.c:186-208 | the segment sent is the concatenation of the first queued lines, shorter than the segment size, and empty only when nothing is queued or the first line does not fit |
| TelnetdSpec.RetransmitExtends | src/libs/Network/uip/telnetd/telnetd.c:381-383 | while the table only grew, cutting a segment again (as on a retransmission) resends the earlier segment's bytes as a prefix |
| TelnetdSpec.PiecesConcat | src/libs/Network/uip/telnetd/telnetd.c:112-149 | the pieces `shell_output` queues join back into the string, none is longer than 256 bytes, a string shorter than 256 is queued whole, a longer one as ceil(len/256) pieces |
| TelnetdSpec.ShellOutputQueues | src/libs/Network/uip/telnetd/telnetd.c:112-149 | with room for all its pieces, `shell_output` appends them to the queue in order |
| TelnetdSpec.ShellHasSpace | src/libs/Network/uip/telnetd/telnetd.c:151-160 | `shell_has_space` is -1 without a session, else the number of free slots |
| TelnetdSpec.ShellPrompt | src/libs/Network/uip/telnetd/telnetd.c:100-110 | `shell_prompt` touches only the line table, and queues nothing while prompting is off |
| TelnetdSpec.ConnLinesCons | src/libs/Network/uip/telnetd/shell.cpp:94-99 | one turn of the loop of `connections`: a closed connection prints nothing, an open one its local port as `inttostr` writes it |
| TelnetdSpec.LineStep | src/libs/Network/uip/telnetd/telnetd.c:223-240 | `get_char` (corrected) keeps the buffer size and the cursor inside the buffer |
| TelnetdSpec.LineStepDelivers | src/libs/Network/uip/telnetd/telnetd.c:223-240 | a carriage return changes nothing; a newline, or a byte landing in the last cell, hands the bytes typed since the last line to the shell and resets the cursor; any other byte is stored at the cursor, which advances |
| TelnetdSpec.FeedLine | src/libs/Network/uip/telnetd/telnetd.c:223-240 | with `get_char` (corrected), a line typed from an empty buffer and ended by a newline reaches the shell exactly as typed, and the cursor is back at 0 |
| TelnetdSpec.EmptyLineAfterHelp | src/libs/Network/uip/telnetd/telnetd.c:231-235 | as written, an empty line after "help" hands the shell "\nelp"; corrected, the empty string |
| TelnetdSpec.LineStepAsWrittenAgrees | src/libs/Network/uip/telnetd/telnetd.c:231-234 | the as-written and corrected line assembly differ only when a line ends at cursor 0 |
| TelnetdSpec.OptionReplies | src/libs/Network/uip/telnetd/telnetd.c:266-331 | WILL and WONT are answered with DONT, DO and DONT with WONT, except that DO/DONT of option 0x55 switch the prompt on/off silently; IAC IAC is a data byte 255; other IAC commands are ignored; in the close state bytes are ignored |
| TelnetdSpec.OptLineZeroAsWritten | src/libs/Network/uip/telnetd/telnetd.c:242-254 | as written, the 3-byte reply for option value 0 is cut to 2 bytes because `senddata` measures it with `strlen` |
| TelnetdSpec.OptLineAsWrittenAgrees | src/libs/Network/uip/telnetd/telnetd.c:242-254 | for non-zero bytes the reply as written is the full three-byte reply |
| TelnetdSpec.CloseIgnoresBytes | src/libs/Network/uip/telnetd/telnetd.c:270-331 | once `shell_quit` set the close state, the remaining bytes of the segment change nothing |
| TelnetdSpec.ExitCloses | src/libs/Network/uip/telnetd/telnetd.c:78-82 | the line "exit" typed into an idle session leaves it in the close state whatever follows in the segment |
| TelnetdSpec.TypeChar | src/libs/Network/uip/telnetd/telnetd.c:324-329 | in the normal state an ordinary byte is stored at the cursor and the cursor advances |
| TelnetdSpec.EnterLine | src/libs/Network/uip/telnetd/telnetd.c:226-236 | with `get_char` (corrected), in the normal state a newline terminates the stored bytes, runs `shell_input` on them and resets the cursor |
| TelnetdSpec.AppcallKeepsInv | src/libs/Network/uip/telnetd/telnetd.c:340-388 | every event that has a session or connects keeps the session invariant: sizes fixed, table packed, the lines of the last segment still queued, cursor inside the buffer |
| TelnetdSpec.AppcallDecisions | src/libs/Network/uip/telnetd/telnetd.c:340-388 | for an event that has a session or connects: a session in the close state is closed on the next event (and reset to normal); a closed, aborted or timed-out connection frees the session; otherwise the stack is stopped when more than 10 commands are queued, restarted on a poll below 5, and a segment is sent exactly on rexmit, newdata, acked, connected or poll |
| TelnetdSpec.ConnectGreets | src/libs/Network/uip/telnetd/telnetd.c:344-354 | a new connection sends the banner and the prompt in its first segment |
| Telnetd.TelnetdState.constructor | src/libs/Network/uip/telnetd/telnetd.c:163-169 | no session, an empty table and buffer, prompting on |
| Telnetd.TelnetdState.SendLine | src/libs/Network/uip/telnetd/telnetd.c:84-98 | the table becomes `TelnetdSpec.SendLine` of the old table |
| Telnetd.TelnetdState.ShellPrompt | src/libs/Network/uip/telnetd/telnetd.c:100-110 | the session becomes `TelnetdSpec.ShellPrompt` of the old one |
| Telnetd.TelnetdState.ShellOutput | src/libs/Network/uip/telnetd/telnetd.c:112-149 | the loop over 256-byte pieces leaves the session `TelnetdSpec.ShellOutput` of the old one |
| Telnetd.TelnetdState.ShellHasSpace | src/libs/Network/uip/telnetd/telnetd.c:151-160 | the counting loop returns `TelnetdSpec.ShellHasSpace` |
| Telnetd.TelnetdState.Acked | src/libs/Network/uip/telnetd/telnetd.c:171-184 | the shifting loop leaves the table with the acknowledged lines dropped and `numsent` 0 |
| Telnetd.TelnetdState.Shift | src/libs/Network/uip/telnetd/telnetd.c:178-181 | every line moves one slot down and the last slot empties |
| Telnetd.TelnetdState.SendData | src/libs/Network/uip/telnetd/telnetd.c:186-208 | the bytes sent are `TelnetdSpec.Segment` of the table and `numsent` becomes the number of lines packed |
| Telnetd.TelnetdState.Closed | src/libs/Network/uip/telnetd/telnetd.c:210-221 | every slot is emptied |
| Telnetd.TelnetdState.ShellQuit | src/libs/Network/uip/telnetd/telnetd.c:78-82 | only the state changes, to close |
| Telnetd.TelnetdState.Help | src/libs/Network/uip/telnetd/shell.cpp:78-86 | the five help lines are queued in order |
| Telnetd.TelnetdState.Connections | src/libs/Network/uip/telnetd/shell.cpp:89-100 | the header, then one line per open connection, are queued in order |
| Telnetd.TelnetdState.Unknown | src/libs/Network/uip/telnetd/shell.cpp:103-109 | a non-empty line is reported as "Unknown command: " followed by the line; the empty line prints nothing |
| Telnetd.TelnetdState.ShellInput | src/libs/Network/uip/telnetd/shell.cpp:134-139 | the session becomes `TelnetdSpec.ShellInput`: the handler `parse` picks has run, then the prompt |
| Telnetd.TelnetdState.ShellStart | src/libs/Network/uip/telnetd/shell.cpp:127-132 | the banner, then the prompt, are queued |
| Telnetd.TelnetdState.GetChar | src/libs/Network/uip/telnetd/telnetd.c:223-240 | `get_char` (corrected): the session becomes `TelnetdSpec.GetChar` of the old one |
| Telnetd.TelnetdState.SendOpt | src/libs/Network/uip/telnetd/telnetd.c:242-254 | `sendopt` (corrected): the whole three-byte reply is queued with `sendline` |
| Telnetd.TelnetdState.NewData | src/libs/Network/uip/telnetd/telnetd.c:256-338 | with `get_char` and `sendopt` (corrected), the byte loop leaves the session `TelnetdSpec.NewData` of the old one, and the stack is stopped exactly when more than 10 commands are queued |
| Telnetd.TelnetdState.Connect | src/libs/Network/uip/telnetd/telnetd.c:344-354 | a fresh session (empty table, cursor 0, normal state, prompt on) that has run `shell_start` |
| Telnetd.TelnetdState.Appcall | src/libs/Network/uip/telnetd/telnetd.c:340-388 | with `get_char` and `sendopt` (corrected), for an event that has a session or connects, the new session and the requests to the stack are those of `TelnetdSpec.Appcall`, and the session invariant holds again |
| Telnetd.TelnetdState.Serve | src/libs/Network/uip/telnetd/telnetd.c:372-387 | with `get_char` and `sendopt` (corrected): acknowledge, take the data, then send, as `TelnetdSpec.Serve` says |
| Shell.Table | src/libs/Network/uip/telnetd/shell.cpp:111-120 | the table has the five commands and ends with the 0 sentinel whose handler is `unknown` |
| Shell.LookupIsFirstStop | src/libs/Network/uip/telnetd/shell.cpp:49-60 | the handler `parse` runs belongs to the first entry whose checksum is the input's or 0 |
| Shell.Parse | src/libs/Network/uip/telnetd/shell.cpp:49-60 | the scan returns the handler of the first entry whose checksum is the input's or the sentinel |
| Shell.TableDispatch | src/libs/Network/uip/telnetd/shell.cpp:111-120 | with distinct non-zero checksums, "stats", "help" and "?" run `help`, "conn" runs `connections`, "exit" runs `shell_quit` and any other line runs `unknown` |
| Shell.DispatchAt | src/libs/Network/uip/telnetd/shell.cpp:53-57 | the scan of the shell table stops at the first entry matching the key, or at the sentinel |
| Shell.StopsAt | src/libs/Network/uip/telnetd/shell.cpp:53-57 | the handler run is the one of the entry where the scan first meets the key or the sentinel |
| Shell.UnknownOutput | src/libs/Network/uip/telnetd/shell.cpp:103-109 | `unknown` prints one line, the prefix and the input, for a non-empty input and nothing for the empty one |
| Shell.IntToStr | src/libs/Network/uip/telnetd/shell.cpp:62-76 | the first five bytes of the buffer become `IntToStrSpec`, the rest is untouched |
| Shell.IntToStrDecimal | src/libs/Network/uip/telnetd/shell.cpp:62-76 | below 1000, `inttostr` writes the decimal numeral right-aligned in three columns (leading zeros become spaces), then a space |
| SftpdSpec.CloseFile | src/libs/Network/uip/sftp/sftpd.cpp:100-101 | closing the open file forgets it and changes neither the state, the pending reply nor the size still expected |
| SftpdSpec.ConnectedTransitions | src/libs/Network/uip/sftp/sftpd.cpp:48-96 | a command line in the connected state always sets a reply: USER logs in, DONE (and only DONE) leads to the close state, STOR leads to waiting for SIZE exactly when its mode is OLD or APP and the file opens (with nothing written yet), and any other word is an unknown command |
| SftpdSpec.GetLengthTransitions | src/libs/Network/uip/sftp/sftpd.cpp:98-116 | after STOR, a SIZE line with a positive count (read with `atoi`) starts the download of that many bytes; anything else closes the file and returns to the connected state with "- Expected size" or "- bad filesize" |
| SftpdSpec.SizeEndsCommands | src/libs/Network/uip/sftp/sftpd.cpp:122 | once a SIZE is accepted the loop of `handle_command` stops: later lines of the segment are not read as commands |
| SftpdSpec.DownloadStep | src/libs/Network/uip/sftp/sftpd.cpp:127-156 | a segment of a download is written to the file up to the bytes still expected; a failed write closes the file with "- Error saving file"; the last byte expected closes it with "+ Saved file"; otherwise the count goes down by the segment length |
| SftpdSpec.DownloadSavesPrefix | src/libs/Network/uip/sftp/sftpd.cpp:127-156 | over any run of segments, the file saved holds exactly the first `filesize` bytes received, and extra bytes are discarded |
| SftpdSpec.SendOnce | src/libs/Network/uip/sftp/sftpd.cpp:28-36 | a pending reply is sent once, with its NUL, and then nothing more is pending |
| SftpdSpec.HandleLinesKeepsInv | src/libs/Network/uip/sftp/sftpd.cpp:38-125 | command handling keeps the invariant that a download always expects a positive number of bytes |
| SftpdSpec.AppcallDecisions | src/libs/Network/uip/sftp/sftpd.cpp:164-214 | a session in the close state is closed on the next event; a closing event closes the open file; on the other events the reply pending after the connect and the new data (if any) is sent, with its NUL, exactly when one of rexmit, newdata, acked, connected or poll happened, and is then no longer pending; nothing is sent otherwise; a poll on a stopped connection restarts it; a new connection is greeted |
| Sftpd.SftpHandler.constructor | src/libs/Network/uip/sftp/sftpd.cpp:14-19 | no file, the normal state, no pending reply |
| Sftpd.SftpHandler.CloseFile | src/libs/Network/uip/sftp/sftpd.cpp:100-101 | the state becomes `SftpdSpec.CloseFile` of the old one |
| Sftpd.SftpHandler.Destroy | src/libs/Network/uip/sftp/sftpd.cpp:21-26 | the destructor closes the file still open |
| Sftpd.SftpHandler.SendData | src/libs/Network/uip/sftp/sftpd.cpp:28-36 | the bytes sent and the new state are those of `SftpdSpec.SendData` |
| Sftpd.SftpHandler.Open | src/libs/Network/uip/sftp/sftpd.cpp:66-91 | the STOR branch for a supported mode: the state becomes `SftpdSpec.Open` of the old one |
| Sftpd.SftpHandler.Command | src/libs/Network/uip/sftp/sftpd.cpp:43-120 | one command line: the state becomes `SftpdSpec.HandleLine` of the old one |
| Sftpd.SftpHandler.HandleCommand | src/libs/Network/uip/sftp/sftpd.cpp:38-125 | the loop over the lines of a segment: the state becomes `SftpdSpec.HandleLines` of the old one |
| Sftpd.SftpHandler.HandleDownload | src/libs/Network/uip/sftp/sftpd.cpp:127-156 | the new state and the return value are those of `SftpdSpec.HandleDownload` |
| Sftpd.SftpHandler.Appcall | src/libs/Network/uip/sftp/sftpd.cpp:164-214 | the new state and the requests to the stack are those of `SftpdSpec.Appcall`, and the download invariant is kept |
| HttpdSpec.MethodToken | src/libs/Network/uip/webserver/httpd.c:264-273 | the first word selects GET or POST by its first four bytes; any other word closes the connection and changes nothing |
| HttpdSpec.PathToken | src/libs/Network/uip/webserver/httpd.c:276-295 | a path not starting with '/' closes the connection; otherwise "/" becomes the index page, any other path is kept (cut to the filename buffer), the headers start and the content length is reset to 0 |
| HttpdSpec.HeaderEnd | src/libs/Network/uip/webserver/httpd.c:299-312 | an empty header line ends the headers |
| HttpdSpec.HeaderContentLength | src/libs/Network/uip/webserver/httpd.c:316-319 | a Content-Length header sets the content length to the number `atoi` reads after it |
| HttpdSpec.HeaderFilename | src/libs/Network/uip/webserver/httpd.c:321-325 | an X-Filename header sets the upload name to the text from byte 12 on, cut to the buffer size less one |
| HttpdSpec.HeaderIgnored | src/libs/Network/uip/webserver/httpd.c:313-326 | any other header line changes nothing but the input buffer |
| HttpdSpec.EndOfHeaders | src/libs/Network/uip/webserver/httpd.c:301-312 | at the end of the headers a GET goes to output; a POST to /upload opens "/sd/" plus the upload name and starts the upload (or fails it when the file does not open); any other POST reads a body when the content length is above 2, takes the last line as the command when it is 1 or 2, and goes to output when it is 0 or less |
| HttpdSpec.UploadLines | src/libs/Network/uip/webserver/httpd.c:347-368 | an upload writes the lines received until the content length is reached, closes the file, and reports success exactly when the bytes written equal the content length |
| HttpdSpec.ExactUpload | src/libs/Network/uip/webserver/httpd.c:347-368 | lines that add up to exactly the content length are all saved and the upload succeeds |
| HttpdSpec.UploadWriteFails | src/libs/Network/uip/webserver/httpd.c:360 | a failed write ends the upload: the file is closed and the upload fails |
| HttpdSpec.BodyLines | src/libs/Network/uip/webserver/httpd.c:328-345 | the body loop reads lines until at most 2 bytes of the content length remain, then takes the last line read (cut to the command buffer) as the command and goes to output |
| HttpdSpec.StepKeepsInv | src/libs/Network/uip/webserver/httpd.c:259-377 | every input step keeps the invariant that a body expects more than 2 bytes and an upload a positive count with an open file |
| HttpdSpec.InputKeepsInv | src/libs/Network/uip/webserver/httpd.c:259-377 | `handle_input` over all reads of a segment keeps that invariant |
| HttpdSpec.LastDot | src/libs/Network/uip/webserver/httpd.c:195 | the position `strrchr` returns: a '.' with no later '.', or none when there is no '.' |
| HttpdSpec.SuffixAfterLastDot | src/libs/Network/uip/webserver/httpd.c:195-210 | the content type depends only on the text after the last '.', and a name without a '.' is plain text |
| HttpdSpec.SuffixTypes | src/libs/Network/uip/webserver/httpd.c:196-210 | the suffix html or shtml gives HTML, css CSS, png PNG, gif GIF, jpg JPEG, anything else plain text (each compared on its own length) |
| HttpdSpec.FileChunksSplit | src/libs/Network/uip/webserver/httpd.c:157-184 | `send_file` sends the file as full segments of `mss` bytes and a last shorter one, which together are the file; an empty file sends one empty segment |
| HttpdSpec.StreamOrder | src/libs/Network/uip/webserver/httpd.c:138-154 | `send_command_response` sends the queued results in order and stops at the end marker, leaving what follows it queued |
| HttpdSpec.CommandResultRules | src/libs/Network/uip/webserver/httpd.c:436-452 | the end marker is always queued; a result is queued and 1 returned exactly when fewer than 10 are queued, otherwise 0 and nothing changes; the queue never grows past 10 results |
| HttpdSpec.RouteCommand | src/libs/Network/uip/webserver/httpd.c:219-226 | a POST to /command queues the body as a command for stream 1, sends 200 and plain text, then streams the results until the end marker |
| HttpdSpec.RouteUpload | src/libs/Network/uip/webserver/httpd.c:228-236 | a POST to /upload answers 200 "OK" or 503 "FAILED" by the upload's outcome and closes |
| HttpdSpec.RouteFile | src/libs/Network/uip/webserver/httpd.c:238-256 | any other request sends the file with 200 and its content type, or the 404 page with 404 and HTML when it does not exist, and closes |
| HttpdSpec.OutputKeeps | src/libs/Network/uip/webserver/httpd.c:214-257 | output changes only the streaming flag and the filename |
| HttpdSpec.ConnectionKeeps | src/libs/Network/uip/webserver/httpd.c:379-388 | `handle_connection` keeps the invariant, the timer and the liveness of the session and never aborts |
| HttpdSpec.AppcallTimer | src/libs/Network/uip/webserver/httpd.c:390-430 | a closing event frees the session; a connect starts one with the timer at 0; an event without a session aborts; a poll counts the timer up and aborts at 40 polls; any other event resets the timer |
| Httpd.ResultFifo.constructor | src/libs/Network/uip/fifo.cpp:5 | the result queue starts empty |
| Httpd.ResultFifo.CommandResult | src/libs/Network/uip/webserver/httpd.c:436-452 | the queue and the return value are those of `HttpdSpec.CommandResult` |
| Httpd.ResultFifo.Pop | src/libs/Network/uip/fifo.cpp:7-10 | the oldest entry is returned and removed |
| Httpd.HttpConnection.constructor | src/libs/Network/uip/webserver/httpd.c:401-411 | a connection object with no session |
| Httpd.HttpConnection.FinishUpload | src/libs/Network/uip/webserver/httpd.c:363-367 | the state becomes `HttpdSpec.FinishUpload` of the old one |
| Httpd.HttpConnection.EndHeaders | src/libs/Network/uip/webserver/httpd.c:301-312 | the state becomes `HttpdSpec.EndHeaders` of the old one |
| Httpd.HttpConnection.MethodStep | src/libs/Network/uip/webserver/httpd.c:264-273 | the state and the close request are those of `HttpdSpec.MethodStep` |
| Httpd.HttpConnection.PathStep | src/libs/Network/uip/webserver/httpd.c:276-295 | the state and the close request are those of `HttpdSpec.PathStep` |
| Httpd.HttpConnection.HeaderStep | src/libs/Network/uip/webserver/httpd.c:297-327 | the state becomes `HttpdSpec.HeaderStep` of the old one |
| Httpd.HttpConnection.BodyStep | src/libs/Network/uip/webserver/httpd.c:328-345 | the state becomes `HttpdSpec.BodyStep` of the old one |
| Httpd.HttpConnection.UploadStep | src/libs/Network/uip/webserver/httpd.c:355-362 | the state becomes `HttpdSpec.UploadStep` of the old one |
| Httpd.HttpConnection.InputStep | src/libs/Network/uip/webserver/httpd.c:259-377 | one read of `handle_input`, as `HttpdSpec.InputStep` |
| Httpd.HttpConnection.HandleInput | src/libs/Network/uip/webserver/httpd.c:259-377 | the loop over the reads of a segment, as `HttpdSpec.HandleInput` |
| Httpd.HttpConnection.SendFile | src/libs/Network/uip/webserver/httpd.c:172-184 | the chunk loop yields `HttpdSpec.FileChunks` |
| Httpd.HttpConnection.SendCommandResponse | src/libs/Network/uip/webserver/httpd.c:138-154 | the output, the remaining queue and the end flag are those of `HttpdSpec.Stream` |
| Httpd.HttpConnection.HandleOutput | src/libs/Network/uip/webserver/httpd.c:214-257 | the output, the queued command, the close request and the new state are those of `HttpdSpec.HandleOutput` |
| Httpd.HttpConnection.Connection | src/libs/Network/uip/webserver/httpd.c:379-388 | input until output, then output, as `HttpdSpec.Connection` |
| Httpd.HttpConnection.Reset | src/libs/Network/uip/webserver/httpd.c:406-411 | the new session waits for a request with the timer at 0, keeping the file log; `command` and `uploadName` start empty, where the source leaves them uninitialised (see "## Left out") |
| Httpd.HttpConnection.Appcall | src/libs/Network/uip/webserver/httpd.c:390-430 | the new state, result queue and requests are those of `HttpdSpec.Appcall`, and the invariant is kept; a connect starts `command` and `uploadName` empty (see "## Left out") |
| HttpdCgi.Lookup | src/libs/Network/uip/webserver/httpd-cgi.c:76-88 | the null function exactly when no table name is a prefix of the name, otherwise the function of the first entry whose name is a prefix |
| HttpdCgi.LookupExamples | src/libs/Network/uip/webserver/httpd-cgi.c:60-66 | "port-status 1" matches the first entry, "port-number2" the fourth, and "port-" none |
| HttpdCgi.TableLength | src/libs/Network/uip/webserver/httpd-cgi.c:219 | the digit table has 71 characters, centred on '0' |
| HttpdCgi.TableDigit | src/libs/Network/uip/webserver/httpd-cgi.c:219 | the table holds the digit of \|r\| at position 35 + r, for r from -35 to 35 |
| HttpdCgi.QuotientMagnitude | src/libs/Network/uip/webserver/httpd-cgi.c:217-219 | the C quotient has the magnitude of the quotient of the magnitudes and the C remainder the sign of the dividend, between -35 and 35 |
| HttpdCgi.LowFirstDigits | src/libs/Network/uip/webserver/httpd-cgi.c:216-220 | the digits the loop writes, reversed, are the numeral of the magnitude |
| HttpdCgi.ItoaReversed | src/libs/Network/uip/webserver/httpd-cgi.c:216-229 | reversing the digits and the sign the loop writes gives the numeral |
| HttpdCgi.WriteDigits | src/libs/Network/uip/webserver/httpd-cgi.c:216-223 | the digit loop writes the least significant digit first, then '-' for a negative value, and nothing else |
| HttpdCgi.ReverseInPlace | src/libs/Network/uip/webserver/httpd-cgi.c:225-229 | the swap loop reverses the written characters and leaves the rest |
| HttpdCgi.WriteReversed | src/libs/Network/uip/webserver/httpd-cgi.c:214-229 | the digit loop, the sign and the in-place reversal leave exactly the numeral `Itoa(value, base)` at the front of the buffer and the bytes after it untouched |
| HttpdCgi.ItoaInto | src/libs/Network/uip/webserver/httpd-cgi.c:208-231 | `itoa` writes the numeral of the value in the base, '-' first for a negative value, then NUL; an invalid base writes only NUL |
| HttpdCgi.ZeroIsWritten | src/libs/Network/uip/webserver/httpd-cgi.c:216-220 | 0 is written as "0" |
| HttpdCgi.BadBaseIsEmpty | src/libs/Network/uip/webserver/httpd-cgi.c:211 | a base outside 2..36 gives the empty string |
| HttpdCgi.DecimalDigits | src/libs/Network/uip/webserver/httpd-cgi.c:216-220 | in base 10 the numeral is all digits and its value is the number |
| HttpdCgi.DecimalRoundTrip | src/libs/Network/uip/webserver/httpd-cgi.c:208-231 | `atoi` reads back every value `itoa` writes in base 10 |
| Network.Find | src/libs/Network/uip/Network.cpp:54 | `string::find` from `p`: the first separator at or after `p`, or none when there is none |
| Network.FieldsFrom | src/libs/Network/uip/Network.cpp:52-62 | when every field is found the result holds exactly `len` bytes; when a separator is missing it holds fewer than `len - 1` |
| Network.ParseIpStr | src/libs/Network/uip/Network.cpp:48-64 | the loop returns whether all `len` fields were found, writes the bytes `Fields` gives at the start of the array (the ones read before a missing separator too) and leaves the rest of the array alone |
| Network.TakeField | src/libs/Network/uip/Network.cpp:53-61 | one pass of the loop: the field up to the next separator (the rest of the string for the last field), or a failure when a separator is missing |
| Network.FailsIffFewSeparators | src/libs/Network/uip/Network.cpp:52-63 | parsing `len` fields succeeds exactly when the string has at least `len - 1` separators |
| Network.ParseBack | src/libs/Network/uip/Network.cpp:48-64 | fields joined by the separator are read back, each through the field reader |
| Network.DottedRoundTrip | src/libs/Network/uip/Network.cpp:48-64 | a dotted quad written in decimal parses back to its four bytes |
| Network.MacRoundTrip | src/libs/Network/uip/Network.cpp:78-79 | a MAC written as six two-digit hex pairs joined by ':' has 17 characters and, read in hex, parses back to its six bytes |
| Network.MacReadAsDecimal | src/libs/Network/uip/Network.cpp:61 | as written, "00:1F:11:02:04:AB" is read with `atoi` as 0,1,11,2,4,0; read in hex it is the MAC written |
| Network.AtoiOctet | src/libs/Network/uip/Network.cpp:61 | as written, a hex pair is read as the decimal value of its leading decimal digits |
| Network.AtoiByte | src/libs/Network/uip/Network.cpp:61 | `atoi` followed by the `uint8_t` store: a byte between 0 and 255 |
| Network.HexByte | src/libs/Network/uip/Network.cpp:61 | the corrected field reader, hexadecimal, stored as a byte between 0 and 255 |
| Network.OctetValue | src/libs/Network/uip/Network.cpp:61 | a hex pair reads back as its byte with the corrected reader |
| Network.DecimalField | src/libs/Network/uip/Network.cpp:61 | a byte written in decimal reads back with `atoi` |
| Network.StartDecisions | src/libs/Network/uip/Network.cpp:66-128 | with the MAC read in hex (corrected), the network starts exactly when it is enabled, a 17-character MAC override (if any) parses and the address, mask and gateway all parse; it stays off when disabled and reports a bad MAC before the addresses; the servers started are the ones enabled |
| Network.MacOverrideOnly17 | src/libs/Network/uip/Network.cpp:77-93 | a MAC override that is not exactly 17 characters is ignored: the MAC comes from the serial-number hash and cannot be bad |
| Network.AutoMac | src/libs/Network/uip/Network.cpp:85-93 | the generated MAC has six bytes, the last being the low byte of the hash |
| Network.Defaults | src/libs/Network/uip/Network.cpp:99-113 | with only `enable` set the network starts on 192.168.3.222, mask 255.255.255.0, gateway 192.168.3.1, with the generated MAC and no servers |
| Network.DefaultIpParses | src/libs/Network/uip/Network.cpp:99 | the default address parses to 192.168.3.222 |
| Network.DefaultMaskParses | src/libs/Network/uip/Network.cpp:104 | the default mask parses to 255.255.255.0 |
| Network.DefaultGatewayParses | src/libs/Network/uip/Network.cpp:109 | the default gateway parses to 192.168.3.1 |
| Network.SelectAppRules | src/libs/Network/uip/Network.cpp:231-241 | port 80 reaches the web server and port 23 the telnet server, each only when enabled, and no other port reaches either |
| Network.LoopDelivers | src/libs/Network/uip/Network.cpp:214-228 | over any run of main-loop passes and commands left by a shell that waits for each answer, the commands reach the console exactly once each and in the order left, each cleared from the slot before it is handed over and followed by the end-of-command response; one left after the last pass is still pending |
| Network.Start | src/libs/Network/uip/Network.cpp:66-128 | `on_module_loaded` (corrected MAC reader): a network that comes up has a six-byte MAC and four-byte address, mask and gateway; a bad address still has a six-byte MAC |
| GcodeSpec.StripSpace | src/modules/communication/utils/Gcode.cpp:125 | the line with its white space removed holds no white space and is no longer than the line |
| GcodeSpec.StripIdempotent | src/modules/communication/utils/Gcode.cpp:125 | removing white space twice is removing it once |
| GcodeSpec.StripAppend | src/modules/communication/utils/Gcode.cpp:125 | removing white space distributes over concatenation |
| GcodeSpec.NumberEnd | src/modules/communication/utils/Gcode.cpp:101-109 | the number scan stops at the first character that is not a digit, '-', '+' or '.' |
| GcodeSpec.NextWord | src/modules/communication/utils/Gcode.cpp:93-116 | `get_next_word` reads a word only by moving past its letter and at least one number character; a failure moves at most one character |
| GcodeSpec.ReadWord | src/modules/communication/utils/Gcode.cpp:93-116 | a capital letter followed by a number is read as that word, and reading stops right after the number |
| GcodeSpec.ScanStep | src/modules/communication/utils/Gcode.cpp:130-141 | one turn of the word loop of `parse_gcode_words` applies the word read and continues after it |
| GcodeSpec.ScanRender | src/modules/communication/utils/Gcode.cpp:130-141 | the words of a line written as letter-number words are read back exactly, up to the end of the line |
| GcodeSpec.ValidIsAllWords | src/modules/communication/utils/Gcode.cpp:144 | a line judged valid is exactly the concatenation of the words read |
| GcodeSpec.ParseRender | src/modules/communication/utils/Gcode.cpp:121-145 | a line made of well-formed words parses as valid, with its parameter letters and values in order |
| GcodeSpec.TrailingJunkIsValid | src/modules/communication/utils/Gcode.cpp:93-144 | as written, "G1x" is judged valid although only "G1" was read, because the failing call has already moved past the 'x' (a trailing letter with no number, as in "G1X", is accepted the same way) |
| GcodeSpec.ValidImpliesAsWritten | src/modules/communication/utils/Gcode.cpp:144 | every line valid under the corrected test is valid as written |
| GcodeSpec.FoldArgs | src/modules/communication/utils/Gcode.cpp:137-140 | the parameter words (all but G and M) are kept in order, with their values |
| GcodeSpec.FoldFlags | src/modules/communication/utils/Gcode.cpp:131-136 | `has_g` and `has_m` are set exactly when a G or M word occurs |
| GcodeSpec.FoldCode | src/modules/communication/utils/Gcode.cpp:131-136 | the shared G/M code is the truncated value of the last G or M word |
| GcodeSpec.SharedCode | src/modules/communication/utils/Gcode.cpp:131-136 | "G1 M105" sets both flags and leaves the code 105, since `g` and `m` share storage |
| GcodeSpec.ValueOfFirst | src/modules/communication/utils/Gcode.cpp:75-85 | `get_value` returns the value of the first occurrence of the letter, or 0 when it is absent |
| GcodeSpec.StripAxes | src/modules/communication/utils/Gcode.cpp:158-166 | the words left have no X, Y, Z, I, J or K letter and letters and values stay aligned |
| GcodeSpec.StripKeeps | src/modules/communication/utils/Gcode.cpp:158-166 | a letter survives stripping exactly when it was present and is not an axis letter |
| GcodeSpec.StripPairs | src/modules/communication/utils/Gcode.cpp:158-166 | a letter-value pair survives exactly when it was present and its letter is not an axis letter |
| GcodeSpec.StripIdempotentAxes | src/modules/communication/utils/Gcode.cpp:153-170 | stripping twice is stripping once |
| GcodeSpec.StripNoAxes | src/modules/communication/utils/Gcode.cpp:153-170 | a word list with no axis letters is left unchanged |
| Gcodes.GetNextWord | src/modules/communication/utils/Gcode.cpp:93-116 | the result, the new position, the letter and the value are those of `GcodeSpec.NextWord` |
| Gcodes.Gcode.constructor | src/modules/communication/utils/Gcode.cpp:17-29 | a new Gcode holds what `GcodeSpec.Parse` (corrected validity) reads from the command and is not yet taken by a module |
| Gcodes.Gcode.ParseGcodeWords | src/modules/communication/utils/Gcode.cpp:121-145 | the word loop appends to the parsed words as `GcodeSpec.ParseFrom` says, sets `valid` by the corrected test and changes nothing else |
| Gcodes.Gcode.HasLetter | src/modules/communication/utils/Gcode.cpp:64-72 | true exactly when the letter is among the parameter letters |
| Gcodes.Gcode.GetValue | src/modules/communication/utils/Gcode.cpp:75-85 | the value of the first occurrence of the letter, 0 when absent |
| Gcodes.Gcode.NumArgs | src/modules/communication/utils/Gcode.cpp:87-90 | the number of parameter words |
| Gcodes.Gcode.MarkAsTaken | src/modules/communication/utils/Gcode.cpp:147-150 | only `accepted_by_module` changes, to true |
| Gcodes.Gcode.StripParameters | src/modules/communication/utils/Gcode.cpp:153-170 | for G0 to G3 the axis words are removed as `GcodeSpec.StripAxes` says, otherwise nothing changes; nothing else changes |
| Gcodes.Gcode.EraseAxes | src/modules/communication/utils/Gcode.cpp:157-166 | the erase loop leaves exactly `GcodeSpec.StripAxes`: the X, Y, Z, I, J and K entries are removed, the other key/value pairs are kept aligned and in order |
| Gcodes.Gcode.Copy | src/modules/communication/utils/Gcode.cpp:33-45 | the copy has the words, travel, stream, text and flags of the original, its code when a flag is set, and is not taken |
| Gcodes.Gcode.Assign | src/modules/communication/utils/Gcode.cpp:47-61 | assignment copies the same fields, keeps the old code when neither flag is set and clears `accepted_by_module` |
| SimpleShellSpec.Lookup | src/modules/utils/simpleshell/SimpleShell.cpp:194-204 | a command runs exactly when some table name is a case-insensitive prefix of the command word, and it is the command of the first such entry |
| SimpleShellSpec.PrefixDispatch | src/modules/utils/simpleshell/SimpleShell.cpp:46-67 | the lookup is by prefix and ignores case: "lsx" and "LS" run `ls`, "?" runs `help` |
| SimpleShellSpec.CommandsOnly | src/modules/utils/simpleshell/SimpleShell.cpp:207-225 | a console line runs a command exactly when it does not start with one of ";( \n\rGMTN" (or is empty) and its first word matches the table; only then is `last_command` set, to the rest of the line; only `reset` changes the reset delay, to 5 |
| SimpleShellSpec.IgnoredLines | src/modules/utils/simpleshell/SimpleShell.cpp:211-213 | empty lines, G-code lines and comment lines are ignored |
| SimpleShellSpec.TicksReset | src/modules/utils/simpleshell/SimpleShell.cpp:140-148 | over successive second ticks from delay `d`, the system is reset exactly once, on tick `d`, and never when `d` is 0 or less |
| SimpleShellSpec.ResetAfterFiveSeconds | src/modules/utils/simpleshell/SimpleShell.cpp:429-434 | after `reset` the system is reset on the fifth second tick and on no other |
| SimpleShellSpec.GcodePaths | src/modules/utils/simpleshell/SimpleShell.cpp:159-192 | only M20, M30, M501 and M504 are acted on; M30 hands "/sd/" followed by the arguments to `rm`; an override file with arguments is the override path, a '.', then the arguments |
| SimpleShellSpec.OverrideFileInjective | src/modules/utils/simpleshell/SimpleShell.cpp:175-190 | different M501/M504 arguments name different override files |
| SimpleShellSpec.ConfigFileRule | src/modules/utils/simpleshell/SimpleShell.cpp:316-322 | `load` and `save` use the config-override file exactly for the root path, and the given path otherwise |
| SimpleShellSpec.CatLimits | src/modules/utils/simpleshell/SimpleShell.cpp:279-286 | a missing or non-numeric limit means no limit (-1); a number is the limit |
| SimpleShellSpec.CatPrefix | src/modules/utils/simpleshell/SimpleShell.cpp:294-311 | for a file without NUL bytes, what `cat` prints, with the text still gathered, is always a prefix of the file; when the limit lies below the count already made it is the whole file |
| SimpleShellSpec.CatWhole | src/modules/utils/simpleshell/SimpleShell.cpp:294-311 | for a file without NUL bytes, a run of `cat` that does not end with the count equal to the limit (no limit, or a limit never reached) has read the whole file: what it printed, followed by the text still gathered, is the file |
| SimpleShellSpec.CatChunks | src/modules/utils/simpleshell/SimpleShell.cpp:294-311 | every piece `cat` prints holds at most 81 characters and at most one newline, at its end |
| SimpleShellSpec.CatStopsAtLimit | src/modules/utils/simpleshell/SimpleShell.cpp:307-309 | `cat` prints at most `limit` pieces |
| SimpleShellSpec.CatLimitZero | src/modules/utils/simpleshell/SimpleShell.cpp:307-309 | with limit 0 and a first character other than a newline, `cat` stops after that character and prints nothing |
| SimpleShellSpec.CatLimitZeroNewline | src/modules/utils/simpleshell/SimpleShell.cpp:297-309 | with limit 0 and a newline first, the count passes 0 at once and is never 0 again: the whole file is read, and what is printed plus the tail still gathered is the whole file |
| SimpleShellSpec.CatSplitsShortLines | src/modules/utils/simpleshell/SimpleShell.cpp:297-305 | as written, two 50-character lines come out as three pieces, the second line split after 31 characters, because the counter is not reset at a newline; with the counter reset at each newline they come out whole |
| SimpleShellSpec.CatLinesWhole | src/modules/utils/simpleshell/SimpleShell.cpp:294-311 | with the counter reset at each newline, a file of lines of at most 80 characters is printed line by line, each with its newline |
| SimpleShellSpec.HandleBsIsIdentity | src/modules/utils/simpleshell/SimpleShell.cpp:150-157 | as written, the set of characters `handle_bs` searches for is the empty C string ("\0" "8" DEL), so it returns the command unchanged |
| SimpleShellSpec.WithoutAppend | src/modules/utils/simpleshell/SimpleShell.cpp:153-155 | removing characters distributes over concatenation |
| SimpleShellSpec.EraseOne | src/modules/utils/simpleshell/SimpleShell.cpp:153-155 | one turn of the loop of `handle_bs` (dropping the first character found) does not change the final result |
| SimpleShellSpec.EditedClean | src/modules/utils/simpleshell/SimpleShell.cpp:150 | the corrected `handle_bs` leaves no backspace or delete, and leaves a line without them unchanged |
| SimpleShellSpec.EditedExample | src/modules/utils/simpleshell/SimpleShell.cpp:150 | corrected, "ab" backspace "c" becomes "ac" |
| SimpleShells.SimpleShell.constructor | src/modules/utils/simpleshell/SimpleShell.cpp:131-138 | the reset delay starts at 0 and no command was run |
| SimpleShells.SimpleShell.ResetCommand | src/modules/utils/simpleshell/SimpleShell.cpp:429-434 | the reset delay becomes 5 |
| SimpleShells.SimpleShell.OnSecondTick | src/modules/utils/simpleshell/SimpleShell.cpp:140-148 | the delay counts down while positive and the system is reset when it reaches 0; nothing else changes |
| SimpleShells.SimpleShell.OnConsoleLineReceived | src/modules/utils/simpleshell/SimpleShell.cpp:207-225 | the new state and the command run are those of `SimpleShellSpec.ConsoleLine` |
| SimpleShells.OnGcodeReceived | src/modules/utils/simpleshell/SimpleShell.cpp:159-192 | the action is that of `SimpleShellSpec.GcodeAction`, the G-code is marked as taken exactly when there is one, and nothing else of it changes |
| SimpleShells.CatCommand | src/modules/utils/simpleshell/SimpleShell.cpp:275-313 | `cat` (corrected): a missing file prints "File not found"; otherwise the character loop prints what `SimpleShellSpec.CatLines`, with the counter reset at every newline, gives for the limit |
| SimpleShells.EraseAll | src/modules/utils/simpleshell/SimpleShell.cpp:151-157 | the loop of `handle_bs` removes every character of the set from the command |
| SimpleShells.HandleBsAsWritten | src/modules/utils/simpleshell/SimpleShell.cpp:151-157 | `handle_bs` as written returns the command unchanged |
| SimpleShells.HandleBs | src/modules/utils/simpleshell/SimpleShell.cpp:150-157 | the corrected `handle_bs` returns `SimpleShellSpec.Edited` of the command |
| UniversalAdapterSpec.OpcodesTopBits | src/modules/utils/panel/panels/UniversalAdapter.cpp:24-29 | the six adapter commands carry the opcodes 1 to 6 in the top three bits and no operand bits, so they are pairwise distinct |
| UniversalAdapterSpec.EncoderRange | src/modules/utils/panel/panels/UniversalAdapter.cpp:98-108 | the encoder delta always lies in [-10, 10]; every move in that range, sent as a two's-complement byte, is read back exactly; larger positive readings are taken as noise and give 0 |
| UniversalAdapterSpec.ButtonsMask | src/modules/utils/panel/panels/UniversalAdapter.cpp:92-96 | the buttons byte has the pause bits clear and every other bit of the reply kept |
| UniversalAdapterSpec.LedBits | src/modules/utils/panel/panels/UniversalAdapter.cpp:135-149 | setting an LED changes only its own bit (to on or off as asked), never the upper five bits; an unknown LED changes nothing; switching an LED off undoes switching it on |
| UniversalAdapterSpec.FrameRoundTrip | src/modules/utils/panel/panels/UniversalAdapter.cpp:117-132 | a write frame is the text length plus 2 bytes long, carries the LCD_WRITE opcode, and the adapter decodes from it the clamped length (at most 30), the row modulo 8, the column modulo 32 and exactly the characters sent |
| UniversalAdapterSpec.LowBits | src/modules/utils/panel/panels/UniversalAdapter.cpp:124 | or-ing a length of at most 31 into LCD_WRITE keeps the opcode and makes the length the operand |
| UniversalAdapterSpec.RowBits | src/modules/utils/panel/panels/UniversalAdapter.cpp:125 | the position byte holds the row's low three bits on top and the column's low five bits below |
| UniversalAdapterSpec.BusyPolls | src/modules/utils/panel/panels/UniversalAdapter.cpp:77-84 | the number of polls is the index of the first ready reading of the busy pin, and every reading before it is busy |
| UniversalAdapterSpec.Polls | src/modules/utils/panel/panels/UniversalAdapter.cpp:79-83 | `k` polls are `k` bytes of 0xFF |
| UniversalAdapters.UniversalAdapter.constructor | src/modules/utils/panel/panels/UniversalAdapter.cpp:31-60 | no LED is lit and nothing has been sent |
| UniversalAdapters.UniversalAdapter.WriteSpi | src/modules/utils/panel/panels/UniversalAdapter.cpp:70-75 | exactly one byte is sent and the byte clocked in is returned; cursor and LEDs are unchanged |
| UniversalAdapters.UniversalAdapter.WaitUntilReady | src/modules/utils/panel/panels/UniversalAdapter.cpp:77-84 | one 0xFF poll is sent per busy reading before the adapter is ready, and nothing else changes |
| UniversalAdapters.UniversalAdapter.SendReadCmd | src/modules/utils/panel/panels/UniversalAdapter.cpp:86-90 | the command and then a 0 are sent, and the answer is the reply to the 0 |
| UniversalAdapters.UniversalAdapter.ReadButtons | src/modules/utils/panel/panels/UniversalAdapter.cpp:92-96 | READ_BUTTONS is sent and the reply is returned with the pause bits cleared |
| UniversalAdapters.UniversalAdapter.ReadEncoderDelta | src/modules/utils/panel/panels/UniversalAdapter.cpp:98-108 | READ_ENCODER is sent and the result is the signed reply, in [-10, 10], with larger readings replaced by 0 |
| UniversalAdapters.UniversalAdapter.Buzz | src/modules/utils/panel/panels/UniversalAdapter.cpp:111-115 | after the busy polls only the BUZZ command is sent; duration and frequency are dropped |
| UniversalAdapters.UniversalAdapter.Write | src/modules/utils/panel/panels/UniversalAdapter.cpp:117-132 | after the busy polls one frame is sent at the old cursor with at most 30 characters; the column advances by that many, modulo 256; row and LEDs are unchanged |
| UniversalAdapters.UniversalAdapter.SetLed | src/modules/utils/panel/panels/UniversalAdapter.cpp:135-154 | the LED bits are updated for the LED, then after the busy polls SET_LEDS\|1 and all the new bits are sent |
| UniversalAdapters.UniversalAdapter.Home | src/modules/utils/panel/panels/UniversalAdapter.cpp:156-160 | the cursor goes to (0, 0) and nothing is sent |
| UniversalAdapters.UniversalAdapter.Clear | src/modules/utils/panel/panels/UniversalAdapter.cpp:162-168 | after the busy polls LCD_CLEAR is sent and the cursor goes to (0, 0) |
| UniversalAdapters.UniversalAdapter.SetCursor | src/modules/utils/panel/panels/UniversalAdapter.cpp:175-179 | the cursor is set to the given column and row and nothing is sent |
| LedRingSpec.Confine | src/modules/utils/led_ring/LedRing.cpp:153-155 | the result is a byte value, and a value already in 0..255 is kept |
| LedRingSpec.SetLeds | src/modules/utils/led_ring/LedRing.cpp:151-160 | every channel written to the pins lies in 0..255 |
| LedRingSpec.Map2RangeAtMin | src/modules/utils/led_ring/LedRing.cpp:146-149 | the bottom of the input range maps to the bottom of the output range |
| LedRingSpec.Map2RangeBounds | src/modules/utils/led_ring/LedRing.cpp:146-149 | on a non-empty input range, an input inside it maps inside the output range |
| LedRingSpec.Map2RangeMonotone | src/modules/utils/led_ring/LedRing.cpp:146-149 | on a non-empty input range, a larger input never maps lower |
| LedRingSpec.Map2RangeZeroDivisor | src/modules/utils/led_ring/LedRing.cpp:220 | a heater with target 24 makes the divisor of `map2range` zero, and its progress is then 0 |
| LedRingSpec.IdleGate | src/modules/utils/led_ring/LedRing.cpp:168-183 | `on_idle` changes nothing unless autorun is on, the machine is not halted and 33333 microseconds have passed; when it runs it records the time |
| LedRingSpec.DueAcrossWrap | src/modules/utils/led_ring/LedRing.cpp:177-178 | the 30 Hz check works on the 32-bit difference of the clock, so it still fires after the clock wraps and does not fire early |
| LedRingSpec.BusyBranch | src/modules/utils/led_ring/LedRing.cpp:185-193 | while the queue is not empty the ring shows the printing colour; the count grows until a print is assumed past 3600; nothing else moves |
| LedRingSpec.PrintDetected | src/modules/utils/led_ring/LedRing.cpp:188-191 | from no print and a zero count, a print is assumed exactly from the 3601st busy sample on, and the count stops at 3601 |
| LedRingSpec.CountStaysSmall | src/modules/utils/led_ring/LedRing.cpp:188-202 | the queue count never exceeds 3601, and exceeds 3600 only while a print is assumed |
| LedRingSpec.QueueEmptied | src/modules/utils/led_ring/LedRing.cpp:194-269 | an empty queue clears the count and the print guess; after an assumed print the finished fade starts from 255 (taking its first step) and the seconds restart at 0 |
| LedRingSpec.SurveyCounts | src/modules/utils/led_ring/LedRing.cpp:205-224 | the loop counts the heating controllers and those at target (never more), sees any hot controller, and takes the least progress of the heating ones, at most 255 |
| LedRingSpec.AllReached | src/modules/utils/led_ring/LedRing.cpp:228-232 | when every heating controller is at target, the reached flag is set and the cooling count cleared |
| LedRingSpec.NothingHeating | src/modules/utils/led_ring/LedRing.cpp:238-240 | when nothing is heating, the reached flag drops at once |
| LedRingSpec.CoolingHysteresis | src/modules/utils/led_ring/LedRing.cpp:233-236 | once reached, the flag survives 300 samples short of target and drops on the 301st |
| LedRingSpec.FadeBounces | src/modules/utils/led_ring/LedRing.cpp:257-266 | the finished fade stays within -1..257, turning down at 255 and up at 0, and may start at 255 |
| LedRingSpec.PulseBounces | src/modules/utils/led_ring/LedRing.cpp:271-282 | the red pulse stays within 9..251, turning down at 250 and up at 10 |
| LedRingSpec.PulseInIdle | src/modules/utils/led_ring/LedRing.cpp:226-284 | with every heating controller at target, an idle sample pulses red only, keeping the pulse in range |
| LedRingSpec.HaltedBlinks | src/modules/utils/led_ring/LedRing.cpp:291-300 | when halted the seconds count advances, red blinks on every third second, and nothing else changes |
| LedRingSpec.BlinkTwice | src/modules/utils/led_ring/LedRing.cpp:295-298 | a blink flips red between 255 and 0, so two blinks restore the light |
| LedRingSpec.FinishedTimesOut | src/modules/utils/led_ring/LedRing.cpp:302-304 | under autorun the finished fade lasts while the seconds count is at most `print_finished_timeout` and stops once it passes it |
| LedRingSpec.M150Auto | src/modules/utils/led_ring/LedRing.cpp:314-318 | M150 without arguments turns autorun on and changes nothing else |
| LedRingSpec.M150Override | src/modules/utils/led_ring/LedRing.cpp:320-340 | M150 sets each of R, U and B it names (confined to 0..255) and then turns autorun off; unnamed channels keep the pin's value |
| LedRingSpec.OtherCommands | src/modules/utils/led_ring/LedRing.cpp:307-313 | any command other than M150 leaves the ring alone |
| LedRingSpec.EventsKeepRanges | src/modules/utils/led_ring/LedRing.cpp:168-344 | idle samples, second ticks and M150 keep the pins in 0..255, the time in 32 bits and the counters in 16 bits |
| LedRings.LedRing.constructor | src/modules/utils/led_ring/LedRing.cpp:70-137 | after loading, autorun is on, the pins are off and the ready and printing colours are confined to 0..255 |
| LedRings.LedRing.SetLeds | src/modules/utils/led_ring/LedRing.cpp:151-160 | each pin receives its channel confined to 0..255 |
| LedRings.LedRing.OnIdle | src/modules/utils/led_ring/LedRing.cpp:168-289 | the new state is one `on_idle` step of the old one, and the integer ranges still hold |
| LedRings.LedRing.QueueBusy | src/modules/utils/led_ring/LedRing.cpp:185-193 | the ring shows the printing colour; unless a print is already assumed, the count grows (in 16 bits) and a print is assumed once it passes 3600 |
| LedRings.LedRing.QueueEmpty | src/modules/utils/led_ring/LedRing.cpp:194-203 | the count is cleared; an assumed print is marked finished, with the fade at 255 and the seconds at 0 |
| LedRings.LedRing.SurveyHeaters | src/modules/utils/led_ring/LedRing.cpp:205-224 | the loop over the controllers computes exactly `LedRingSpec.Survey` of the readings, whose meaning `LedRingSpec.SurveyCounts` states |
| LedRings.LedRing.Settle | src/modules/utils/led_ring/LedRing.cpp:205-288 | the state after the heater survey, the hot pin and the lights is the one the idle step prescribes |
| LedRings.LedRing.Show | src/modules/utils/led_ring/LedRing.cpp:257-288 | the lights show the finished fade, else the red pulse, else the chosen colour |
| LedRings.LedRing.UpdateHeat | src/modules/utils/led_ring/LedRing.cpp:226-245 | the reached flag follows its hysteresis and the hot pin shows whether anything is hot |
| LedRings.LedRing.FadeStep | src/modules/utils/led_ring/LedRing.cpp:257-269 | the fade value moves by 2 with its direction, and all three pins show its fade |
| LedRings.LedRing.PulseStep | src/modules/utils/led_ring/LedRing.cpp:271-284 | red moves by 2 from the pin's value with its direction; green and blue go off |
| LedRings.LedRing.OnSecondTick | src/modules/utils/led_ring/LedRing.cpp:291-305 | the new state is one second tick of the old one, and the integer ranges still hold |
| LedRings.LedRing.OnGcodeReceived | src/modules/utils/led_ring/LedRing.cpp:307-344 | the new state is M150's effect on the old one, and the integer ranges still hold |

## Left out

- The uIP stack and packet I/O (`uip_input`, ARP, `uip_periodic`, `tapdev_send`, the timers of `on_idle` in `Network.cpp`): a connection event is a value with its flags, the bytes delivered and the MSS.
- Protothread and PSOCK mechanics: each `PSOCK_READTO`/`PSOCK_SEND` read or send is one step on the token it yields or one output item; saved program counters are not modelled.
- `printf`/`DEBUG_PRINTF` output, and what SimpleShell commands print, except `cat`'s chunks and the shell's Telnet output.
- File-system calls (`fopen`, `fwrite`, `fclose`, `remove`, `opendir`): whether a call succeeds is a parameter, and a file is the bytes written through it. httpd's 400-byte close and reopen during an upload is not modelled; it does not change the bytes written.
- `telnetd.h` and `httpd.h` are not part of this model: `TELNETD_CONF_NUMLINES`, the line buffer size and the sizes of `filename` and `upload_name` are constructor parameters of the classes.
- `StreamOutput.h` is not part of this model: a new `CallbackStream` is taken to start open.
- `http-strings.c` is not part of this model: the Content-Length header literal is taken to be "Content-Length:".
- `fifo.h` (the `Fifo` template) is not part of this model: the HTTP result fifo is a sequence.
- shell.cpp calls a two-argument `shell_output` that telnetd.c does not define (it has a one-argument one); the model prints the two strings joined.
- shell.cpp's `unknown` only prints "Unknown command: " and the line; it does not forward the line to the command queue. The model follows the code.
- Allocation in `alloc_line` never fails in the model; on a NULL result `shell_output` would spin for ever.
- `numsent` is set to 0 on connect and on close, where the C code leaves the freed session's value unspecified.
- The field `method` of `struct httpd_state` is called `verb` (`method` is a keyword).
- The `generate_*` script functions of `httpd-cgi.c`: they read hardware, and the GPIO/ADC ones are commented out.
- The three-argument `registerCallback` variant of `CommandQueue`.
- `Gcode::dump` (float formatting), `strtof` (a parameter), and the `Gcode.h` layout, which is stale against `Gcode.cpp`.
- SimpleShell's file-system and kernel commands (`ls`, `cd`, `pwd`, `rm`, `mem`, `net`, `version`, `dfu`, `break`, `get`, `set_temp`, `switch`, `help`, `test`, the bodies of `load` and `save`): only their dispatch and the paths they act on are modelled.
- LedRing: `fade()` (`exp2f`) is a parameter, `max_pwm` is taken as its default of 255 so `setLeds` only confines to 0..255, temperatures are boolean readings (hot, heating, at target) with truncated integer values for `map2range`, and a zero divisor in `map2range` gives 0 (the quotient the LPC17xx's divider returns). LedRing.h does not match LedRing.cpp (it declares `setLeds` with `uint8_t` channels and none of `current_value`, `cooled_cnt` or `printing_r/g/b`); the model follows LedRing.cpp, where these are `int`, so the fade value can reach 257 as `LedRingSpec.QueueEmptied` and `LedRingSpec.FadeBounces` state.
- The configuration look-ups and pin set-up of the constructors and `on_module_loaded` (`Network.cpp`, `UniversalAdapter.cpp`, `LedRing.cpp`); `getSerialNumberHash` is a parameter.
- `parse_ip_str` keeps a `c_str()` of a temporary; the model reads the intended field.
- `UniversalAdapter::init`, `display` and the destructor: pin toggles and delays only.
- CommandQueues.CommandQueue.Pop: requires that the oldest command's id has a stream; `stream_map[id]` on an unregistered id inserts NULL and `puts(NULL)` then dereferences it.
- CallbackStreams.CallbackStream.Puts: requires that the callback eventually answers something other than 0; otherwise the source retries for ever.
- NetworkStreams.Puts: requires that the callback eventually answers something other than 0; otherwise the source retries for ever.
- UniversalAdapters.UniversalAdapter.WaitUntilReady: requires that the busy pin eventually reads ready (and so do `Buzz`, `Write`, `SetLed` and `Clear`, which call it); otherwise the source polls for ever.
- Httpd.ResultFifo.Pop: requires a non-empty fifo; its only caller waits for `fifo_size() > 0` first.
- HttpdCgi.ItoaInto: requires a buffer large enough for the digits and the NUL, which the C caller must provide.
- LedRings.LedRing.OnIdle: requires the clock reading to be a 32-bit value, as `us_ticker_read` returns.
- HttpdSpec.PathToken: the path is cut to the filename buffer with `Take`; the source copies it with `strncpy(filename, …, sizeof(filename))` (httpd.c:287), which writes no NUL when the path has `sizeof(filename)` bytes or more, so the name then runs on into the next field of the state. The model keeps only the cut name.
- HttpdSpec.BodyLines: the last body line is cut to the command buffer with `Take`; `strncpy(command, …, sizeof(command))` (httpd.c:338) leaves the buffer unterminated when the line fills it, and the queued command then runs on into the following bytes. The model keeps only the cut line.
- Httpd.HttpConnection.PathStep: is `HttpdSpec.PathStep`, so it has the unterminated-filename gap of the `HttpdSpec.PathToken` line.
- Httpd.HttpConnection.BodyStep: is `HttpdSpec.BodyStep`, so it has the unterminated-command gap of the `HttpdSpec.BodyLines` line (and so does `HttpdSpec.StartBody` for a body of at most 2 bytes).
- Httpd.HttpConnection.InputStep: runs `PathStep` and `BodyStep`, so it inherits both unterminated-buffer gaps.
- Httpd.HttpConnection.HandleInput: runs `InputStep`, so it inherits both unterminated-buffer gaps.
- Gcodes.Gcode.ParseGcodeWords: sets `valid` by the corrected test (every character belongs to a word); as written, Gcode.cpp:144 also accepts one trailing character the failing `get_next_word` stepped past, as in "G1x" or "G1X" (see `GcodeSpec.TrailingJunkIsValid`).
- SimpleShellSpec.CatPrefix: assumes a file without NUL bytes; each piece is printed with `puts(buffer.c_str())`, which would stop at a NUL, and the model does not follow that cut (so does `SimpleShellSpec.CatWhole`).
- HttpdSpec.Fresh: a new session starts with `command` and `uploadName` empty; in the source `httpd_appcall` takes the state from `malloc` (httpd.c:402) and never initialises them. So a POST /command with no or a zero Content-Length skips the copy at httpd.c:338 and queues whatever bytes `command` held (httpd.c:222), where the model queues ""; a POST /upload without an X-Filename header opens an indeterminate `upload_name` (httpd.c:351), where the model opens "/sd/"; and a long X-Filename is copied by `strncpy` (httpd.c:323) without a terminating NUL, so the name runs on into the following bytes, where the model cuts it at the buffer size less one.
- Httpd.HttpConnection.Reset: sets `command` and `uploadName` to "" as `HttpdSpec.Fresh` does, so it does not capture the three uninitialised-buffer cases named on that line.
- Httpd.HttpConnection.Appcall: a connect goes through `Reset`, so it inherits the same three cases.
- GcodeSpec.Trunc: truncates toward zero into an unbounded integer; `g` and `m` are `unsigned int` (Gcode.h), and converting a value of -1 or less or of 2^32 or more is undefined in C++. The comparisons the model makes on the code (`< 4`, `== 20`, `30`, `150`, `501`, `504`) do not depend on that case.
- TelnetdSpec.FeedLine: states the corrected `get_char`; as written, a line ended at cursor 0 skips the NUL store (telnetd.c:232-234) and hands the shell "\n" followed by the bytes left from the previous line (see `TelnetdSpec.EmptyLineAfterHelp` under Findings).
- TelnetdSpec.EnterLine: states the corrected `get_char`; at cursor 0 the shell gets "" here, where the source hands over "\n" and stale bytes.
- Telnetd.TelnetdState.GetChar: the corrected `get_char`; the as-written empty line at cursor 0 is modelled only by `TelnetdSpec.LineStepAsWritten` and the Findings lemmas.
- Telnetd.TelnetdState.SendOpt: queues the whole three-byte reply; in the source the queued line is a C string, so `senddata`'s `strlen` (telnetd.c:198) sends only IAC and the verb for option value 0 (see `TelnetdSpec.OptLineZeroAsWritten`).
- Telnetd.TelnetdState.NewData: runs the corrected `get_char` and `sendopt` on every byte, so it differs from the source on an empty line at cursor 0 and on option value 0.
- Telnetd.TelnetdState.Serve: runs `NewData` and so inherits its two corrections.
- Telnetd.TelnetdState.Appcall: inherits the corrections of `NewData`; and it requires a session or a connect event (as do `TelnetdSpec.Appcall`, `TelnetdSpec.AppcallKeepsInv` and `TelnetdSpec.AppcallDecisions`): after a close sets `s` to NULL (telnetd.c:362-367) a later non-connect event, such as a poll of another port-23 connection, dereferences NULL at telnetd.c:356, which the model does not represent.
- TelnetdSpec.Appcall: requires a session or a connect event, for the NULL-session reason given for `Telnetd.TelnetdState.Appcall`.
- Gcodes.Gcode.constructor: `valid` is the corrected test of `GcodeSpec.Parse` (every character belongs to a word); as written, Gcode.cpp:144 also accepts a line with one trailing non-letter such as "G1x", or a trailing capital letter with no number such as "G1X", because `get_next_word` has already stepped past the character when it fails (see `GcodeSpec.TrailingJunkIsValid`).
- SimpleShells.CatCommand: prints `SimpleShellSpec.CatLines`, which resets the run counter at every newline; as written (SimpleShell.cpp:301-305) the counter runs on across lines, so a file of two 50-character lines is printed in three pieces (see `SimpleShellSpec.CatSplitsShortLines`, and `SimpleShellSpec.CatAsWritten` for the as-written loop).
- Network.Start: reads a 17-character MAC override in hex with `HexByte`; as written `parse_ip_str` reads each MAC field with `atoi` (Network.cpp:61, 79), so "00:1F:11:02:04:AB" brings the interface up as 00:01:0B:02:04:00 in the source (see `Network.MacReadAsDecimal`). `Network.StartDecisions`, `Network.MacOverrideOnly17` and `Network.Defaults` hold for either reader, since success depends only on the separators.
- CString.Atoi: reads an unbounded integer; on the 32-bit target `atoi` is `(int)strtol`, which saturates at 2147483647, so a SIZE, a Content-Length or an address field of 2^31 or more reads differently in the source (for example the address field "4294967296" is byte 255 there and 0 here).

## Findings

| source | as written | input that shows it | evidently intended | confidence | as-written member | corrected member |
|---|---|---|---|---|---|---|
| src/libs/Network/uip/telnetd/telnetd.c:231-235 | an empty line at cursor 0 is handed to the shell with the newline not replaced by NUL, followed by stale bytes | "help\n" then "\n": the shell gets "\nelp" | the empty line is handed over as the empty string | not executed | TelnetdSpec.EmptyLineAfterHelp | TelnetdSpec.LineStepDelivers |
| src/libs/Network/uip/telnetd/telnetd.c:198, 242-254 | `sendopt` queues its three-byte reply as a C string, so `senddata`'s `strlen` cuts it at a 0 option value | IAC DO 0 is answered with IAC WONT only | the full reply IAC WONT 0 | not executed | TelnetdSpec.OptLineZeroAsWritten | TelnetdSpec.OptionReplies |
| src/modules/communication/utils/Gcode.cpp:93-144 | the failing `get_next_word` call steps over a non-letter before giving up, so the line counts as fully consumed | "G1x" and "G1X" are valid | a line is valid only when every character belongs to a word read | not executed | GcodeSpec.TrailingJunkIsValid | GcodeSpec.ValidIsAllWords |
| src/modules/utils/simpleshell/SimpleShell.cpp:150-157 | the set "\008\177" starts with an octal NUL, so `find_first_of` searches an empty set and `handle_bs` returns its input | "ab\bc" comes back unchanged | each backspace or delete removes itself and the character before it | not executed | SimpleShellSpec.HandleBsIsIdentity | SimpleShellSpec.EditedClean |
| src/modules/utils/simpleshell/SimpleShell.cpp:297-305 | `cat`'s character counter is reset only by a forced split, not at a newline | two lines of 50 characters: the second is split after its 31st character | only lines longer than 80 characters are split | not executed | SimpleShellSpec.CatSplitsShortLines | SimpleShellSpec.CatLinesWhole |
| src/libs/Network/uip/Network.cpp:61, 79 | the MAC override is read field by field with `atoi`, in decimal | "00:1F:11:02:04:AB" gives 00:01:0B:02:04:00 | each field is read as two hex digits | not executed | Network.MacReadAsDecimal | Network.MacRoundTrip |
