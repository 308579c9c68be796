# Verified models of four JTAG, flash and key-agreement components

This project models, in Dafny, the parts of the repository that drive hardware
state machines or run protocols, and proves what they promise over whole runs:

- **Lib(X)SVF** (`svfload/libxsvf`): the SVF text interpreter, the XSVF byte-code
  interpreter, the IDCODE scan and the wrapper `libxsvf_play`, all of which drive
  a TAP through one callback per TCK cycle and track the TAP state without ever
  reading it back.
- **The FTDI host** (`xsvftool-ft232h.c`), which buffers pulses, compiles them into
  MPSSE byte code and later splits the reply bytes back onto the pulses, and the
  simple **GPIO host** (`xsvftool-gpio.c`).
- **svfload** (`svfload.c`): the analyze pass that counts TCK cycles without
  hardware, and the play pass.
- **papilio-prog**: the JTAG stack (`ioftdi.cpp`, `iobase.cpp`, `jtag.cpp`) with its
  lazily sent TMS bits and chains of devices, and SPI flash programming
  (`progalgspi.cpp`).
- **uvgRTP** (`zrtp.cc`): the ZRTP handshake and its key derivation.
- **SLCAN** (`SLCan.cpp`): printing and parsing CAN frames on a serial line.

## How the models are built

Code that changes state step by step is a class or a method with loops, proved
equal to a specification function of its inputs and the old state; the properties
are then proved about that function. Everything the program asks of its
environment is a parameter: a host is any function from the requests made so far
to an answer (`HostApi.Env`), a JTAG target is any function from the history of TMS
and TDI levels to the TDO level (`Mpsse.Device`), a network is any sequence of
received messages, and hash functions are any functions (`ZrtpKeys.Crypto`).

| file | what it holds |
|---|---|
| `TapController`, `HostApi`, `TapWalk`, `Host` | the sixteen-state controller of IEEE Std 1149.1-2001 (section 6.1), the callbacks, `libxsvf_tap_walk` |
| `SvfLexer`, `SvfLayout`, `ReadCommand`, `SvfText` | reading SVF commands and their words; what layout, comments and case mean |
| `SvfSyntax`, `SvfArguments` | the text of literals, numbers, state names and parameters, and of whole commands, read back |
| `SvfBitdata`, `SvfScan` | bit vectors: hex literals, sticky parameters, shifting |
| `SvfScript`, `SvfPlayer`, `SvfTracking`, `SvfMeaning`, `SvfEndState`, `SvfHistory` | commands, the interpreter, its tracked state, what a scan clocks, end states, the scans of a run in terms of the file's commands |
| `Mpsse`, `FtdiPlan`, `FtdiCorrect`, `FtdiModel`, `FtdiLog`, `FtdiLevel`, `FtdiHost` | the MPSSE engine (FTDI AN_108, sections 3.4 and 3.5), the compiler from pulses to byte code, its correctness, the host |
| `GpioModel`, `GpioHost`, `Refinement`, `WireLog` | the GPIO host, that batching refines it, and the pins of both hosts in terms of the requests |
| `XsvfModel`, `XsvfTracking`, `XsvfIncrement`, `XsvfPadding`, `XsvfPlayer` | XSVF: specification, tracked state, XSDRINC in the buffer and in the shifted interval, interpreter |
| `XsvfWire`, `XsvfHistory` | XSVF: what shift_data and XSDRINC put on TDI, the scans of a run in terms of the file's commands |
| `ChainScan`, `ScanOnHosts`, `Play`, `ResetExact`, `Analyze` | the scan and its runs on both hosts, `libxsvf_play`, when it ends in reset, svfload's two passes |
| `TxTms`, `LazyTms`, `LazyTracking`, `ScanPath`, `Jtag`, `JtagMeaning` | papilio-prog's JTAG stack on a model of a scan path |
| `Flash` | flash programming on a model of a NOR flash |
| `ZrtpRoles`, `ZrtpSession`, `ZrtpNetwork` | ZRTP roles, the session's loops, two sessions that talk (RFC 6189, sections 4.2 and 4.4) |
| `ZrtpLoops`, `ZrtpLockstep` | when a session ends well, and when two that send and receive in turn do |
| `ZrtpKeys`, `ZrtpInputs` | ZRTP secrets and keys, and what they depend on (RFC 6189, sections 4.4.1.4, 4.5.1 and 4.5.3) |
| `SlCan` | the serial CAN protocol |
| `Bits`, `Arithmetic` | powers of two, bits of numbers, division |

`dafny verify dfyconfig.toml` checks the project.

## Results that limit what the code promises

Some natural claims do not hold of the code. Each is stated with its exact
condition; where that does not name the failing input itself, a lemma gives one:

- The tracked TAP state of an SVF run is right after every walk, scan and wait
  exactly if no RUNTEST clocks TCK in a state that TMS low leaves
  (`SvfTracking.SvfTrackingExact`); `RUNTEST RESET 1 TCK` breaks it
  (`SvfTracking.DriftingCommand`).
- Therefore `libxsvf_play` need not end in Test-Logic-Reset (`Playing.DriftingPlay`).
  Every host ends there exactly if, at each point of the file's script where a run
  can stop, the controller is no further from Test-Logic-Reset than the recorded
  state (`ResetExact.SvfResetsForEveryHost`). For a file that waits in states that
  SVF calls stable this fails exactly where a run is adrift: with RESET recorded,
  and TCK last clocked by a RUNTEST there (`ResetExact.StableFallsShort`).
- A synchronous pulse on the FTDI host returns the level of its own cycle, whatever
  the device, exactly if the flush does not end with a TDI transfer of whole bytes,
  which does not set `last_tdo` (`FtdiLevel.FlushLevelExact`); such a transfer carries
  the trailing run at one TMS level but for at most six pulses
  (`FtdiLevel.TailOfRun`). One synchronous pulse, seven others and another synchronous
  one, all with TMS low, return an old level (`FtdiLevel.StaleLevel`). The scan's
  pulses always get their own (`ScanOnHosts.FtdiScan`).
- ENDDR checks the variable that ENDIR sets: it fails exactly if that variable holds
  no state (`SvfEndState.EndDrAccepts`). That never happens in a run, so that ENDDR
  accepts every word (`SvfEndState.EndDrInRun`). After `ENDDR NOWHERE` the
  next SDR fails (`SvfEndState.EndDrNowhere`), since an SDR fails exactly if its end
  state is missing or one of the two Exit2 states (`SvfEndState.SdrNeedsEndDr`).
- A scan whose three lengths are all zero, and no other, clocks a bit too many: when
  its end state is not the Shift state (`SvfMeaning.ScanShiftsExactly`).
- XSDRINC's loops start at the left of the buffer, shift_data behind its padding: the
  address that the target gets counts, and the target gets all data bits, exactly if
  no shifted bit from index `dr_size` on is masked (`XsvfPadding.AddressOnTheWire`,
  `XsvfPadding.DataOnTheWire`). With nine bits a one-bit address at the end never
  counts (`XsvfPadding.NineBits`), and a data bit there need not be the input's
  (`XsvfPadding.NineDataBits`).
- In the buffer the address counts exactly if no bit belongs to both masks
  (`XsvfPadding.CountsIffDisjoint`; `XsvfPadding.OverlapMisses` finds a vector for
  which it does not). With enough input, an update leaves the buffer exactly if more
  data bits were counted, for an earlier size, than are masked now
  (`XsvfIncrement.UpdateDefined`).
- `setTapState` with extra cycles keeps the tracked state right exactly in the states
  that TMS low keeps (`LazyTracking.SetStateInStep`), so not with one cycle in
  Test-Logic-Reset (`LazyTracking.ResetPadded`).
- `shiftDR` and `shiftIR` latch what they shift exactly if the state they go on to
  is not one of the four between Capture and Update (`JtagMeaning.ShiftDrDelivers`,
  `JtagMeaning.ShiftIrSelects`).
- `getChain` reads the IDCODEs of a chain exactly if no device with an IDCODE follows
  one without, seen from TDO (`JtagMeaning.ChainIsRead`), so not that of a device
  behind one in BYPASS (`JtagMeaning.BypassHides`).
- XSDRTDOB, XSDRTDOC and XSDRTDOE take the TDO bits to expect, but none of their
  cycles checks TDO (`XsvfHistory.TdoUnchecked`).
- Two ZRTP sessions that send and receive in turn, each message lost or not, both end
  well exactly if any two messages that one loop needs come within its ten turns, and
  the one Conf2ACK arrives (`ZrtpLockstep.ContentionEnds`, `ZrtpLockstep.FoundEnds`).
  So nine losses in a loop of ten turns are too many (`ZrtpLockstep.NineLosses`), with
  at most eight lossy rounds in any ten all depends on the Conf2ACK
  (`ZrtpLockstep.FewLosses`), and its loss alone makes the initiator fail
  (`ZrtpLockstep.OneLoss`), since it is sent once. With equal commitments a contention
  makes both fail (`ZrtpLockstep.TieFails`).
- The key derivation is not the one of RFC 6189, section 4.5.1: on a little-endian
  machine the counter has the other byte order, and the zero byte stands behind the
  context, so that no key needs to be the RFC's (`ZrtpInputs.NotTheRfcs`).
- A ZRTP responder's own salt has the length asked for exactly if its peer's salt has
  the same number of bytes (`ZrtpKeys.OwnSaltLength`); with 14 and 12 bytes it is too
  short (`ZrtpKeys.ShortSalt`).
- An SLCAN frame with eight data bytes is accepted by `send` but not by the parser,
  which writes past its array (`SlCan.FrameIsHandled`).

## Model

| member | source | states |
|---|---|---|
| TapWalk.TurnApproaches | svfload/libxsvf/tap.c:28-173 | one turn of the walk brings every reachable target exactly one turn nearer, and none is further than nine turns |
| TapWalk.TurnMisses | svfload/libxsvf/tap.c:28-173 | an unreachable target stays unreachable whatever turn is taken, so the walk gives up |
| TapWalk.WalkAgrees | svfload/libxsvf/tap.c:28-173 | any walk, completed or given up, from an unknown or agreeing state leaves the recorded state equal to the controller's; it succeeds exactly for reachable targets and then ends there |
| Hosts.LibxsvfTapWalk | svfload/libxsvf/tap.c:28-173 | the loop clocks the pulses of the specified walk, records its end state, and returns -1 exactly when it gives up |
| SvfLexer.LexNormal | svfload/libxsvf/svf.c:23-90 | every command read from any input is in normal form: no leading or doubled space and none inside parentheses, no lower case, no comment, a space around every outermost parenthesis |
| SvfLexer.RelexFixpoint | svfload/libxsvf/svf.c:23-90 | a text followed by a semicolon is read back unchanged if and only if it is in normal form |
| SvfLayout.CommentIsNewline | svfload/libxsvf/svf.c:58-71 | wherever a comment opens, with ! or //, it reads as a newline would that stood for it up to its end: the first control character other than a tab |
| SvfLayout.CommentAtEnd | svfload/libxsvf/svf.c:58-71 | a comment that runs to the end of the file reads as the end of the file |
| SvfLayout.SpacesAreOne | svfload/libxsvf/svf.c:52-57 | any spaces, tabs and other control characters read as one space |
| SvfLayout.NoSpacesInside | svfload/libxsvf/svf.c:52-57 | inside parentheses they read as none |
| SvfLayout.SpaceBeforeOpen | svfload/libxsvf/svf.c:74-78 | an outer parenthesis may follow a word directly |
| SvfLayout.SpaceAfterClose | svfload/libxsvf/svf.c:83-87 | and a word may follow one directly |
| SvfLayout.CaseIsIgnored | svfload/libxsvf/svf.c:79-82 | a normal text spelled with any letters in lower case is read back as that text |
| CommandReader.ReadCommand | svfload/libxsvf/svf.c:23-90 | the loop over the growing buffer returns the specified command, end of file or error, and never writes past the buffer |
| CommandReader.Grow | svfload/libxsvf/svf.c:32-41 | a grown buffer keeps what was read |
| CommandReader.SkipToEol | svfload/libxsvf/svf.c:59-66 | a comment is skipped up to its control character, or to the end of the file |
| CommandReader.ReadChar | svfload/libxsvf/svf.c:44-87 | one character adds at most two to the buffer and leaves the rest of the reading unchanged |
| SvfText.TokenSplit | svfload/libxsvf/svf.c:92-112 | a word without spaces, a space and a rest are taken apart again |
| SvfText.StrTokenCmp | svfload/libxsvf/svf.c:92-104 | zero if and only if the first words are equal |
| SvfText.StrTokenSkip | svfload/libxsvf/svf.c:106-112 | how far the next word starts |
| SvfSyntax.StateNamed | svfload/libxsvf/svf.c:114-136 | a word names a state exactly if it is one of the sixteen names, and that state |
| SvfSyntax.TimeRead | svfload/libxsvf/svf.c:425-514 | a number with any exponent is read as its value and as its millionths |
| SvfSyntax.BitsRead | svfload/libxsvf/svf.c:172-286 | the text of a length and any parameters, in any order, is read as that length and those parameters |
| SvfArguments.ArgumentsRead | svfload/libxsvf/svf.c:425-514 | the text of any RUNTEST arguments is read as what they say: states, counts of TCK or SCK, times and a maximum |
| SvfArguments.RuntestMeans | svfload/libxsvf/svf.c:425-531 | RUNTEST with any arguments walks to its run state, pulses SCK, waits with its TCK count and the millionths of its seconds, and walks to its end state |
| SvfArguments.StateMeans | svfload/libxsvf/svf.c:569-580 | STATE walks through the states it names, in their order |
| SvfArguments.TrstMeans | svfload/libxsvf/svf.c:598-621 | TRST sets 1 for ON, 0 for OFF, -1 for Z and -2 for ABSENT |
| SvfArguments.FrequencyMeans | svfload/libxsvf/svf.c:375-403 | FREQUENCY with a number in HZ, plain or with an exponent, asks for its value |
| SvfBitdata.LiteralValueBit | svfload/libxsvf/svf.c:163-170 | bit k of a hex literal, as its digits give it, is bit k of the number the literal denotes |
| SvfBitdata.FillBit | svfload/libxsvf/svf.c:229-248 | the k-th bit from the end of the filled buffer is bit k of the literal, for any number of digits that fits |
| SvfBitdata.StickyParameters | svfload/libxsvf/svf.c:172-286 | over any sequence of commands the TDI, SMASK, MASK and RMASK in force are the latest given within the trailing commands of the same length |
| SvfBitdata.TdoIsNotSticky | svfload/libxsvf/svf.c:172-286 | TDO is checked by a command exactly if it has the keyword: against the literal that the command gives, or, if another keyword stands between TDO and its literal, against the latest one given before |
| SvfBitdata.PlayAgrees | svfload/libxsvf/svf.c:293-326 | from a Shift state the recorded state after a vector is the controller's: the increment happens on the one pulse with TMS high |
| SvfScan.BitdataParse | svfload/libxsvf/svf.c:172-286 | the loops over the text change the vector as the parsed command says, or report the syntax error |
| SvfScan.FillBuffer | svfload/libxsvf/svf.c:229-248 | the loop over the digits fills the buffer as specified |
| SvfScan.ParseOne | svfload/libxsvf/svf.c:190-255 | one keyword and its literal change one field of the vector, or are malformed |
| SvfScan.BitdataPlay | svfload/libxsvf/svf.c:293-326 | the loop clocks the vector's pulses in order and fails exactly if some answer is negative |
| SvfMeaning.ScanIsItsBits | svfload/libxsvf/svf.c:533-567 | SDR and SIR clock the bits of header, data and trailer in that order, TMS high on the last one alone, for every combination of empty parts |
| SvfMeaning.ScanDrivesLiterals | svfload/libxsvf/svf.c:533-567 | the TDI level of the k-th pulse of the scan is the corresponding bit of the literal of its part, and TDI is left alone where that part's SMASK is zero; parts without bits need no literal |
| SvfMeaning.MaskSelects | svfload/libxsvf/svf.c:305-315 | a mask selects exactly the bits that are set in its literal |
| SvfMeaning.PartChecksLiteral | svfload/libxsvf/svf.c:309-311 | TDO is checked exactly on the MASK bits, against the literal's bit |
| SvfMeaning.PartKeepsRmask | svfload/libxsvf/svf.c:312-312 | a pulse's TDO level is kept exactly on the bits of the RMASK literal, and never without one |
| SvfMeaning.WalkCycles | svfload/libxsvf/svf.c:533-567 | the walks around a scan clock no bit in the Shift state, except the one that leaves it |
| SvfMeaning.ScanShiftsExactly | svfload/libxsvf/svf.c:533-567 | the controller spends exactly the sum of the three lengths in Shift if and only if that sum is positive or the scan ends in Shift; otherwise exactly one cycle |
| SvfHistory.VectorChanges | svfload/libxsvf/svf.c:405-596 | a command changes the vector of its own name, and no other |
| SvfHistory.RecordedInRun | svfload/libxsvf/svf.c:346-634 | in a run the six vectors and two end states are what the commands of their names have given so far |
| SvfHistory.ScanInRun | svfload/libxsvf/svf.c:533-567 | every SDR or SIR of a run clocks the bits of the literals in force after the file's commands up to it: of the header commands, then its own, then of the trailer commands, with the checks of their masks, and ends in the state that the latest ENDDR or ENDIR names |
| SvfPlayer.EatRuntest | svfload/libxsvf/svf.c:425-514 | the loops over RUNTEST's arguments read states, counts and times as specified, or fail |
| SvfPlayer.RuntestLine | svfload/libxsvf/svf.c:425-531 | RUNTEST reads its arguments, keeps the run states they name for later commands, and waits |
| SvfPlayer.DoRuntest | svfload/libxsvf/svf.c:515-531 | RUNTEST walks, pulses SCK, waits and walks again, stopping where a walk fails |
| SvfPlayer.DoScan | svfload/libxsvf/svf.c:533-567 | SDR and SIR make the specified requests, stopping at the part whose TDO mismatches |
| SvfPlayer.DoVector | svfload/libxsvf/svf.c:405-596 | the six vector commands parse into their own vector; SDR and SIR then scan |
| SvfPlayer.DoStates | svfload/libxsvf/svf.c:569-580 | STATE walks through the named states in order, up to the first bad one |
| SvfPlayer.EndState | svfload/libxsvf/svf.c:357-373 | ENDIR and ENDDR, with the check as the code has it |
| SvfEndState.EndIrRejects | svfload/libxsvf/svf.c:357-364 | ENDIR fails exactly for a word that names no state |
| SvfEndState.EndDrAccepts | svfload/libxsvf/svf.c:366-373 | ENDDR fails exactly if ENDIR's variable holds no state, whatever the word, and keeps what the word names |
| SvfEndState.EndIrStays | svfload/libxsvf/svf.c:346-373 | a command after which a run goes on leaves a state in ENDIR's variable |
| SvfEndState.ExecutedIsCompiled | svfload/libxsvf/svf.c:346-634 | the commands that a run executes, each with the variables it finds, make up the script |
| SvfEndState.EndDrInRun | svfload/libxsvf/svf.c:346-373 | in a run of any input an ENDDR fails exactly if something follows its word, and keeps what the word names, a state or not |
| SvfEndState.SdrNeedsEndDr | svfload/libxsvf/svf.c:533-549 | an SDR with a well-formed vector fails exactly if its end state is missing or one of the two Exit2 states |
| SvfEndState.EndDrNowhere | svfload/libxsvf/svf.c:366-373 | ENDDR NOWHERE is accepted, and the next SDR fails |
| SvfPlayer.DoFrequency | svfload/libxsvf/svf.c:375-403 | FREQUENCY with its exponent |
| SvfPlayer.DoTrst | svfload/libxsvf/svf.c:598-621 | TRST and its four values |
| SvfPlayer.DoCommand | svfload/libxsvf/svf.c:357-634 | every command changes the variables and makes the requests its specification says |
| SvfPlayer.PlayCommand | svfload/libxsvf/svf.c:346-639 | one turn of the main loop leaves a run to go on with that ends as the whole run does, or ends it |
| SvfPlayer.LibxsvfSvf | svfload/libxsvf/svf.c:328-656 | for any input and any host the run makes exactly the requests of the compiled script up to the first failure, and returns its code |
| SvfScript.RunsThrough | svfload/libxsvf/svf.c:346-656 | a run that no answer stops has made every request of the file |
| SvfTracking.RuntestDrift | svfload/libxsvf/svf.c:515-531 | a RUNTEST breaks tracking exactly if it has a positive TCK count and its run state is reachable but not kept by TMS low |
| SvfTracking.SvfTrackingExact | svfload/libxsvf/svf.c:328-656 | from any power-up state, over any input, recorded and real TAP state agree after every chunk if and only if no RUNTEST drifts |
| SvfTracking.PlaySvfTracks | svfload/libxsvf/svf.c:328-656 | the same at the end of a run with any host, wherever the run stops |
| SvfTracking.DriftingCommand | svfload/libxsvf/svf.c:525-527 | on RUNTEST RESET 1 TCK tracking fails from every state |
| FtdiPlan.NoteAllMeaning | svfload/libxsvf/xsvftool-ft232h.c:241-306 | the handlers set the error flag exactly on a mismatch of a pulse with TDO enabled, and capture the first 256 RMASK bits in pulse order |
| FtdiCorrect.JobCodeRuns | svfload/libxsvf/xsvftool-ft232h.c:256-358 | the MPSSE engine, given a transfer's bytes and any more, does what the transfer says and then goes on with the rest |
| FtdiCorrect.JobIsDone | svfload/libxsvf/xsvftool-ft232h.c:256-358 | a transfer shows each buffered pulse on the wires, leaves TMS at its last level, produces the expected number of reply bytes, and its handler reads from them each pulse's own TDO level |
| FtdiModel.PlanCovers | svfload/libxsvf/xsvftool-ft232h.c:437-467 | a flush cuts the buffer into non-empty transfers in order: at most six pulses agreeing on TDI with TMS changes, or one TMS level with a byte count that fits 16 bits |
| FtdiModel.FlushMeaning | svfload/libxsvf/xsvftool-ft232h.c:419-491 | a flush clocks exactly the buffered pulses in order and notes exactly the levels read during them; no reply byte is left over |
| FtdiLog.FtdiMeaning | svfload/libxsvf/xsvftool-ft232h.c:493-517 | after any requests every pulse asked for is on the wire or buffered, in order; error_rc is set exactly if a pulse sent since it was last cleared mismatched; retval holds the first 256 RMASK bits |
| FtdiLog.FtdiAnswers | svfload/libxsvf/xsvftool-ft232h.c:727-749 | an answer is negative exactly if a pulse sent by then, since the error was cleared, mismatched; after a sync nothing is pending |
| FtdiLevel.FlushLevel | svfload/libxsvf/xsvftool-ft232h.c:280-306 | last_tdo after a flush is the level read for the last pulse whose transfer is not made of whole bytes, or what it was |
| FtdiLevel.TailOfRun | svfload/libxsvf/xsvftool-ft232h.c:437-467 | the TDI transfer that ends a flush carries the trailing run at one TMS level, but for at most six pulses that a TMS transfer takes |
| FtdiLevel.FlushLevelExact | svfload/libxsvf/xsvftool-ft232h.c:280-306 | for every device last_tdo is the level of the last cycle, if and only if it is left from the last pulse, if and only if the flush does not end in whole bytes |
| FtdiLevel.SyncReadsItsLevel | svfload/libxsvf/xsvftool-ft232h.c:736-749 | then a synchronous pulse returns the level of its own cycle, after any requests |
| FtdiLevel.StaleLevel | svfload/libxsvf/xsvftool-ft232h.c:736-749 | after set-up, a synchronous pulse with TMS low, seven others and another synchronous one: the last answer is not the level of its cycle |
| FtdiHost.Udata.MyFtdiWriteData | svfload/libxsvf/xsvftool-ft232h.c:158-212 | bytes go through the 4096-byte block buffer in order and none stays behind |
| FtdiHost.Udata.NewReadJob | svfload/libxsvf/xsvftool-ft232h.c:214-239 | read jobs form a queue |
| FtdiHost.Udata.TransferTmsJobHandler | svfload/libxsvf/xsvftool-ft232h.c:241-254 | the handler notes each pulse against its own reply bit |
| FtdiHost.Udata.TransferTms | svfload/libxsvf/xsvftool-ft232h.c:256-278 | writes the TMS command for these pulses and queues its job |
| FtdiHost.Udata.TransferTdiJobHandler | svfload/libxsvf/xsvftool-ft232h.c:280-306 | whole bytes from bit 0 upwards and a partial byte from its top bits, each bit noted against its own pulse |
| FtdiHost.Udata.TransferTdi | svfload/libxsvf/xsvftool-ft232h.c:308-358 | writes the whole-byte command and the partial-byte command for these pulses and queues their job |
| FtdiHost.Udata.ProcessNextReadJob | svfload/libxsvf/xsvftool-ft232h.c:360-391 | the first job takes its own bytes off the reply; a short reply is an error |
| FtdiHost.Udata.SpanTms | svfload/libxsvf/xsvftool-ft232h.c:441-452 | the inner loop finds the longest TMS transfer |
| FtdiHost.Udata.SpanTdi | svfload/libxsvf/xsvftool-ft232h.c:458-463 | the inner loop finds the longest run at one TMS level |
| FtdiHost.Udata.WriteTransfers | svfload/libxsvf/xsvftool-ft232h.c:437-468 | the writing loop queues and writes the whole plan and leaves the TMS level behind |
| FtdiHost.Udata.ProcessAllJobs | svfload/libxsvf/xsvftool-ft232h.c:488-489 | the reading loop drains all jobs in order |
| FtdiHost.Udata.BufferFlush | svfload/libxsvf/xsvftool-ft232h.c:419-491 | the flush over array, block buffer and job queue is the specified flush |
| FtdiHost.Udata.BufferSync | svfload/libxsvf/xsvftool-ft232h.c:493-503 | flushes what is pending |
| FtdiHost.Udata.BufferAdd | svfload/libxsvf/xsvftool-ft232h.c:505-517 | a pulse enters the array, which is flushed when full |
| FtdiHost.Udata.Udelay | svfload/libxsvf/xsvftool-ft232h.c:697-719 | flushes, clocks the idle cycles in order, and flushes again |
| FtdiHost.Udata.Sync | svfload/libxsvf/xsvftool-ft232h.c:727-734 | answers from error_rc after a flush and clears it |
| FtdiHost.Udata.PulseTck | svfload/libxsvf/xsvftool-ft232h.c:736-749 | the answer and the new state of one pulse, synchronous or not |
| FtdiHost.Udata.SetFrequency | svfload/libxsvf/xsvftool-ft232h.c:751-768 | for any frequency, zero included, the divisor command is accepted by the engine and clocks nothing |
| FtdiHost.DivisorIsLeast | svfload/libxsvf/xsvftool-ft232h.c:756-756 | the divisor is the least one from 2 up with which TCK is not faster than asked for, and fits its sixteen bits exactly from 92 Hz up |
| GpioModel.GpioMeaning | svfload/libxsvf/xsvftool-gpio.c:221-291 | the pins have shown every pulse asked for and retval holds the first 256 RMASK bits |
| GpioHost.Udata.HUdelay | svfload/libxsvf/xsvftool-gpio.c:221-251 | clocks the idle cycles one by one |
| GpioHost.Udata.HPulseTck | svfload/libxsvf/xsvftool-gpio.c:259-291 | one cycle, its comparison and its capture |
| Refinement.BatchingRefinesPulses | svfload/libxsvf/xsvftool-ft232h.c:505-517 | a whole SVF file fails on the FTDI host if and only if it fails on the GPIO host; on success both made the same requests, both wires show every TMS and every driven TDI level, and the captures are equal |
| Refinement.GpioOutcome | svfload/libxsvf/xsvftool-gpio.c:259-291 | on the GPIO host a file succeeds exactly if it is well formed and none of its pulses mismatches |
| Refinement.FtdiOutcome | svfload/libxsvf/svf.c:641-644 | so does it on the FTDI host, although mismatches surface late |
| WireLog.GpioOnWire | svfload/libxsvf/xsvftool-gpio.c:221-291 | after any log the pins show every TMS level asked for, and every TDI level in its cycle |
| WireLog.FtdiOnWire | svfload/libxsvf/xsvftool-ft232h.c:697-760 | and so they do on the FTDI host once it has answered a sync |
| WireLog.WrongIs | svfload/libxsvf/xsvftool-ft232h.c:493-517 | a request is wrong exactly if it checks TDO and the line shows the other level in its cycle |
| WireLog.PinsEndInReset | svfload/libxsvf/play.c:23-71 | by the levels on the pins of either host a steady run of any kind leads the controller to Test-Logic-Reset from any state |
| XsvfModel.SetBitGet | svfload/libxsvf/xsvf.c:106-118 | setbit changes the bit that getbit reads and no other |
| XsvfPlayer.SetBitOf | svfload/libxsvf/xsvf.c:111-118 | setbit on the array |
| XsvfPlayer.ReadLong | svfload/libxsvf/xsvf.c:68-79 | four bytes, most significant first, or a failure at the end of the file |
| XsvfPlayer.ReadBits | svfload/libxsvf/xsvf.c:56-66 | as many bytes as the bits begin, or a failure at the end of the file |
| XsvfPlayer.Walk | svfload/libxsvf/xsvf.c:96-99 | a failed walk fails the command |
| XsvfPlayer.PulseBits | svfload/libxsvf/xsvf.c:196-218 | one attempt clocks the bits from the last one down and notices any negative answer |
| XsvfPlayer.ShiftDataM | svfload/libxsvf/xsvf.c:177-233 | all attempts of a shift with their walks, waits and syncs, up to the first that matches |
| XsvfPlayer.DoSize | svfload/libxsvf/xsvf.c:300-313 | XSDRSIZE gives all five buffers the new size |
| XsvfPlayer.DoDr | svfload/libxsvf/xsvf.c:282-404 | XSDR, XSDRTDO and their begin, continue and end forms, each with its end state and check |
| XsvfPlayer.DoIr | svfload/libxsvf/xsvf.c:272-281 | XSIR and XSIR2 |
| XsvfPlayer.DoMasks | svfload/libxsvf/xsvf.c:323-331 | XSETSDRMASKS reads both masks and counts the data bits |
| XsvfPlayer.CountBits | svfload/libxsvf/xsvf.c:328-330 | the loop counts the set bits of the data mask |
| XsvfPlayer.IncrementBuffer | svfload/libxsvf/xsvf.c:343-353 | the carry loop over the buffer is the specified increment |
| XsvfPlayer.ScatterBits | svfload/libxsvf/xsvf.c:354-361 | the scatter loop, its reads, and the case where it would leave the buffer |
| XsvfPlayer.DoInc | svfload/libxsvf/xsvf.c:332-363 | XSDRINC's loop of scans and updates |
| XsvfPlayer.DoState | svfload/libxsvf/xsvf.c:405-414 | XSTATE walks to the state named by its operand, by way of the command before it |
| XsvfPlayer.DoWait | svfload/libxsvf/xsvf.c:444-457 | XWAIT and XWAITSTATE walk, wait and walk |
| XsvfPlayer.DoComment | svfload/libxsvf/xsvf.c:436-443 | a comment is skipped up to its zero byte |
| XsvfPlayer.DoCommand | svfload/libxsvf/xsvf.c:261-466 | every command code makes its requests and changes its variables as specified |
| XsvfPlayer.LibxsvfXsvf | svfload/libxsvf/xsvf.c:235-485 | for any bytes and any host the interpreter makes exactly the specified requests and returns the specified code |
| XsvfTracking.ShiftDataTracks | svfload/libxsvf/xsvf.c:177-233 | a shift with any number of retries keeps the recorded state equal to the controller's |
| XsvfTracking.PlayXsvfTracks | svfload/libxsvf/xsvf.c:235-485 | so does every whole XSVF run, for any bytes, any host and any power-up state |
| XsvfIncrement.IncrementAdds | svfload/libxsvf/xsvf.c:343-353 | the loop adds its carry to the masked field modulo two to the mask's weight |
| XsvfIncrement.IncrementKeeps | svfload/libxsvf/xsvf.c:343-353 | and changes no unmasked bit |
| XsvfIncrement.ScatterReads | svfload/libxsvf/xsvf.c:354-361 | with as many data bits as the mask has, the loop stays in the buffer and reads one byte for every eight bits begun |
| XsvfIncrement.ScatterWrites | svfload/libxsvf/xsvf.c:354-361 | a masked bit receives the data bit of its rank among the masked bits; every other bit stays |
| XsvfIncrement.ScatterStays | svfload/libxsvf/xsvf.c:354-361 | with enough input the loop leaves the buffer exactly if it has more bits to place than there are masked bits left |
| XsvfIncrement.MasksStay | svfload/libxsvf/xsvf.c:300-331 | no command but XSDRSIZE makes masks stale, and XSETSDRMASKS makes them current |
| XsvfIncrement.UpdateDefined | svfload/libxsvf/xsvf.c:343-361 | an update is defined exactly if no more data bits were counted than are masked now, whatever size the masks were set for |
| XsvfIncrement.XsdrincCounts | svfload/libxsvf/xsvf.c:332-363 | XSDRINC shifts num + 1 vectors unless it is stopped; the address field of vector k is the first one's plus k modulo the field's size, its data field holds the k-th group of data bits, every other bit is the first vector's |
| XsvfPadding.AddressOnTheWire | svfload/libxsvf/xsvf.c:343-353 | for every vector the address in the shifted bits counts up by one modulo its size, if and only if no shifted bit from index dr_size on belongs to it |
| XsvfPadding.DataOnTheWire | svfload/libxsvf/xsvf.c:354-361 | whatever the vector before, every shifted data bit is the input's bit of its rank in the mask, if and only if no shifted bit from index dr_size on is masked |
| XsvfPadding.NineBits | svfload/libxsvf/xsvf.c:343-353 | nine bits with a one-bit address at the end of the buffer: the increment changes nothing |
| XsvfPadding.NineDataBits | svfload/libxsvf/xsvf.c:354-361 | nor is a data bit there the input's, for some vector before |
| XsvfPadding.CountsIffDisjoint | svfload/libxsvf/xsvf.c:343-361 | for every vector the address field counts up by one, if and only if no bit belongs to both masks |
| XsvfPadding.OverlapMisses | svfload/libxsvf/xsvf.c:343-361 | a vector whose address field does not count, for any bit that belongs to both |
| XsvfWire.NumberBit | svfload/libxsvf/xsvf.c:106-109 | bit k of the number that a buffer denotes, first byte most significant, is the bit that getbit reads k before the last one |
| XsvfWire.PulsesAreBits | svfload/libxsvf/xsvf.c:196-208 | the k-th cycle of a shift drives bit k of the vector, checks TDO exactly where bit k of the mask is set, against bit k of the expected vector, and has TMS high on the last one to leave |
| XsvfWire.AttemptIs | svfload/libxsvf/xsvf.c:190-221 | an attempt walks in, clocks those bits and walks out, through a wait in Run-Test/Idle if there is one; it is wrong exactly if an answer was negative |
| XsvfWire.ShiftDataIs | svfload/libxsvf/xsvf.c:177-233 | shift_data makes attempts until one is not wrong, at most retries + 1, and succeeds exactly if there is one and the sync before retries went well; no walk of it fails |
| XsvfWire.AddressCountsOnTdi | svfload/libxsvf/xsvf.c:332-363 | the address that the target gets on TDI counts up from a scan of an XSDRINC to the next, modulo its size, if and only if no shifted bit from index dr_size on belongs to it |
| XsvfWire.DataArrivesOnTdi | svfload/libxsvf/xsvf.c:353-360 | every cycle that the data mask selects carries the input's bit of its rank, whatever the vector before, if and only if no shifted bit from index dr_size on is masked |
| XsvfHistory.LoopExecutes | svfload/libxsvf/xsvf.c:253-466 | the main loop runs the commands of the file up to the first that does not go on, and ends as that one does |
| XsvfHistory.RecordedInRun | svfload/libxsvf/xsvf.c:253-466 | in a run size, XRUNTEST, XREPEAT, XENDIR and XENDDR are the big-endian numbers last given, and each buffer is the operand of the latest command that gives it, refitted by every XSDRSIZE since |
| XsvfHistory.ScanInRun | svfload/libxsvf/xsvf.c:272-435 | every XSDR, XSDRTDO, XSDRB, XSDRC, XSDRE, their TDO forms, XSIR and XSIR2 of a run shifts its own operand, with the mask, expected bits, end state, wait and retries that the file has given up to it, and the run goes on exactly if the scan succeeds |
| XsvfHistory.IncInRun | svfload/libxsvf/xsvf.c:332-363 | an XSDRINC of a run, with masks that were set after the size and do not overlap, shifts vectors that count up from its first operand, as many more as its second one says, each as a data scan of that vector |
| XsvfHistory.TdoUnchecked | svfload/libxsvf/xsvf.c:285-404 | a cycle of a data scan checks TDO exactly in XSDR, XSDRTDO and XSDRINC on the bits of the latest XTDOMASK, so never in XSDRTDOB, XSDRTDOC and XSDRTDOE |
| XsvfHistory.StateInRun | svfload/libxsvf/xsvf.c:405-414 | XSTATE walks to the state of its operand, right after an XRUNTEST of more than nothing by way of a wait in Run-Test/Idle, and fails exactly if the walk cannot reach it |
| XsvfHistory.WaitInRun | svfload/libxsvf/xsvf.c:444-457 | XWAIT and XWAITSTATE walk to the first state, wait without clocking, and walk to the second |
| XsvfHistory.CommentInRun | svfload/libxsvf/xsvf.c:436-443 | a comment goes to the first zero byte, and without one the run fails |
| XsvfHistory.StateCodes | svfload/libxsvf/xsvf.c:120-175 | the sixteen codes are the states in the order of Xilinx XAPP503, and any other code is no state |
| ChainScan.LibxsvfScan | svfload/libxsvf/scan.c:23-57 | the nested loops report what the specified scan finds, device by device |
| ChainScan.ScanReportsChain | svfload/libxsvf/scan.c:33-53 | a chain of any length is reported in the order seen on TDO, with zero for a device without IDCODE, up to 256 devices |
| ChainScan.PlayScanReports | svfload/libxsvf/scan.c:23-57 | the same for a whole scan from power-up |
| ScanOnHosts.GpioScan | svfload/libxsvf/scan.c:23-57 | on the GPIO host a scan from power-up reports the IDCODEs of any chain that its target shows on TDO |
| ScanOnHosts.FtdiScan | svfload/libxsvf/scan.c:23-57 | so does a scan on the FTDI host, for every buffer size: byte code, reply bytes, last_tdo and error_rc between the scan and the wire change nothing |
| ScanOnHosts.FtdiShowsBits | svfload/libxsvf/xsvftool-ft232h.c:736-749 | the k-th synchronous pulse of a scan is answered with the k-th bit of the chain, and nothing stays pending |
| ChainScan.PlayScanTracks | svfload/libxsvf/scan.c:23-57 | a scan, completed or not, keeps the recorded state right |
| Playing.LibxsvfPlay | svfload/libxsvf/play.c:23-71 | set-up, run, final walk, sync and shutdown with their return codes |
| Playing.PlayEndsInReset | svfload/libxsvf/play.c:23-71 | without a drifting RUNTEST every run of any mode whose set-up succeeds ends in Test-Logic-Reset, whether it completes or fails |
| Playing.DriftingPlay | svfload/libxsvf/play.c:23-71 | a file after which the target is in Run-Test/Idle instead, with every host |
| ResetExact.PlayResetsExactly | svfload/libxsvf/play.c:23-71 | for every file, host and power-up state, a run ends in Test-Logic-Reset if and only if the recorded state is as far from it as the controller, or further |
| ResetExact.WindUpExact | svfload/libxsvf/play.c:57-61 | the final walk is as many TMS-high cycles as the recorded state is away, and arrives if and only if the controller is no further |
| ResetExact.CompleteRunResets | svfload/libxsvf/play.c:23-71 | a run that makes all requests of the file ends there if and only if the last walk is long enough at the end of the file's script |
| ResetExact.SvfResetsForEveryHost | svfload/libxsvf/play.c:23-71 | every host ends there if and only if the last walk is long enough at every point of the script where a run can stop: its end, or a checked scan with a request |
| ResetExact.StableFallsShort | svfload/libxsvf/play.c:23-71 | in a file that waits in stable states the last walk is too short exactly where RESET is recorded and TCK was last clocked by a RUNTEST |
| Analyze.KsvfArgs.CbAnalyzeUdelay | svfload/svfload.c:267-274 | adds the cycles of a wait to the total |
| Analyze.KsvfArgs.CbAnalyzePulseTck | svfload/svfload.c:276-285 | adds one cycle and never reports an error |
| Analyze.KsvfArgs.CbPlayUdelay | svfload/svfload.c:303-330 | blocks of at most 100000 cycles clock exactly the cycles asked for, and count them |
| Analyze.KsvfArgs.CbPlayPulseTck | svfload/svfload.c:332-354 | one cycle, and a negative answer on a mismatch |
| Analyze.KsvfArgs.AnalyzeRun | svfload/svfload.c:267-285 | serving a whole run by the analyze callbacks yields its tally |
| Analyze.KsvfArgs.PlayRun | svfload/svfload.c:303-354 | serving a whole run by the play callbacks clocks its TMS levels and counts them |
| Analyze.MainPlay | svfload/svfload.c:453-485 | analyze first, play only if that went well, with both totals as the callbacks count them |
| Analyze.AnalyzePredicts | svfload/svfload.c:453-485 | whenever the play pass returns success, the cycles clocked are exactly the total predicted without hardware |
| Analyze.PlayReturns | svfload/svfload.c:332-354 | the play pass returns 0 if and only if the file is well-formed, the board comes up and down, and the target shows the level asked for at every check of the file |
| Analyze.AnalyzeReturns | svfload/svfload.c:276-301 | the analyze pass returns 0 if and only if the file is well-formed and not empty |
| TxTms.Send | papilio-prog/ioftdi.cpp:242-260 | the MPSSE commands clock exactly the pattern's first bits in order with TDI high, for any length |
| LazyTms.TowardApproaches | papilio-prog/iobase.cpp:88-315 | one turn of setTapState's table follows the controller and gets strictly nearer to every one of the sixteen targets |
| LazyTms.PathArrives | papilio-prog/iobase.cpp:88-315 | so the path taken ends in the target |
| LazyTms.IOBase.FlushTms | papilio-prog/iobase.cpp:46-52 | the pending bits go out in order, and sent and pending together stay the same |
| LazyTms.IOBase.ShiftTDITDO | papilio-prog/iobase.cpp:54-61 | flushes, shifts the data, and returns the level of each of its own cycles |
| LazyTms.IOBase.Shift | papilio-prog/iobase.cpp:75-86 | bits that are only clocked stay pending |
| LazyTms.IOBase.SetTapState | papilio-prog/iobase.cpp:88-315 | the loop appends exactly the path and the extra cycles |
| LazyTms.IOBase.NextTapState | papilio-prog/iobase.cpp:319-328 | the recorded state after a shift; outside the Shift states a reset is appended |
| LazyTms.IOBase.TapTestLogicReset | papilio-prog/iobase.cpp:330-339 | five ones are appended |
| LazyTracking.SetStateInStep | papilio-prog/iobase.cpp:88-315 | extra cycles keep the recorded state right if and only if TMS low keeps the target |
| LazyTracking.ResetPadded | papilio-prog/iobase.cpp:88-315 | one extra cycle in Test-Logic-Reset makes the recorded state wrong |
| LazyTracking.AlwaysInStep | papilio-prog/iobase.cpp:46-339 | after any operations in any order from power-up the recorded state is the one reached by the bits sent followed by the bits pending |
| JtagChain.PreBitsAlign | papilio-prog/jtag.cpp:95-103 | with an alignment the leading padding is the least positive number that completes a multiple |
| JtagChain.Jtag.Padding | papilio-prog/jtag.cpp:93-99 | the loop computes the leading padding |
| JtagChain.Jtag.GetChain | papilio-prog/jtag.cpp:39-67 | reset, read, and the device list in reverse order of reading |
| JtagChain.Jtag.SelectDevice | papilio-prog/jtag.cpp:69-74 | selects an existing device or none |
| JtagChain.Jtag.SetDeviceIRLength | papilio-prog/jtag.cpp:83-88 | changes one device's length or refuses |
| JtagChain.Jtag.ShiftDR | papilio-prog/jtag.cpp:90-114 | walk, padding, data and trailing padding, as a whole or in parts, for data of any length, and the TDO level of each data bit |
| JtagChain.Jtag.ShiftIR | papilio-prog/jtag.cpp:116-131 | ones for the devices before and after, the instruction between them, the walk out, and the TDO level of each bit of the instruction |
| JtagMeaning.ShiftIrSelects | papilio-prog/jtag.cpp:116-131 | for any chain, any lengths and any state to go on to, the selected device's instruction register latches tdi and every other one all ones; in the four states before Update-IR nothing is latched yet |
| JtagMeaning.ShiftDrDelivers | papilio-prog/jtag.cpp:90-114 | for any alignment and any state to go on to, the selected device's data register latches exactly the data; in the four states before Update-DR nothing is latched yet |
| JtagMeaning.ShiftDrInParts | papilio-prog/jtag.cpp:90-114 | a shift in two parts is the shift of the whole |
| JtagMeaning.ShiftDrReads | papilio-prog/jtag.cpp:90-114 | for any alignment the bits that shiftDR returns are those of the scan path as captured, from TDO, less the ones that the padding shifted out, and then what was shifted in |
| JtagMeaning.ShiftDrReadsRegister | papilio-prog/jtag.cpp:90-114 | so bit j of the selected device's register is read as bit j without an alignment, and else early or late by the difference of padding and bypass bits |
| JtagMeaning.ChainIsRead | papilio-prog/jtag.cpp:39-67 | exactly the IDCODEs of the chain are read, the device nearest TDO first, if and only if no device with an IDCODE follows one without |
| JtagMeaning.BypassHides | papilio-prog/jtag.cpp:39-67 | with a device without IDCODE nearest TDO the one behind it is not found |
| JtagMeaning.IdcodeSelects | papilio-prog/jtag.cpp:39-131 | a device selected by the IDCODE that getChain read from it latches the instruction of a shiftIR, wherever it is in the chain, and every other instruction register holds ones |
| ZrtpRoles.AreWeInitiator | uvgrtp-2.0.0/src/zrtp.cc:320-335 | the loop compares the hash commitments as numbers, last byte most significant, and a tie counts as ours |
| ZrtpRoles.RunKeeps | uvgrtp-2.0.0/src/zrtp.cc:408-614 | every step of two parties on a network that loses, repeats and reorders keeps the invariant that ties roles, phases and messages sent |
| ZrtpRoles.RolesAgree | uvgrtp-2.0.0/src/zrtp.cc:408-614 | in every reachable state the parties are never both responders nor both acting initiators, and who finishes as initiator has a peer that finished as responder |
| ZrtpNetwork.TalkIsRun | uvgrtp-2.0.0/src/zrtp.cc:408-614 | two sessions that receive what the other sent, interleaved in any way, are a run of the protocol model |
| ZrtpNetwork.SessionsAgree | uvgrtp-2.0.0/src/zrtp.cc:625-720 | when both are over their roles agree, and if both end well they are opposite |
| ZrtpLoops.LoopEnds | uvgrtp-2.0.0/src/zrtp.cc:408-614 | each loop ends with the first message that decides it, if that comes within its ten turns, and fails otherwise |
| ZrtpLoops.SessionEnds | uvgrtp-2.0.0/src/zrtp.cc:408-614 | for anything that it receives a session ends well if and only if it gets, in time and in order, a Commit to give way to, a DHPart2 and a Confirm2 that parse, or an answer to its Commit, a Confirm1 that parses and a Conf2ACK; and the MACs of that first Confirm are right. It is responder exactly if it gave way |
| ZrtpLockstep.StageGoes | uvgrtp-2.0.0/src/zrtp.cc:408-614 | each stage of two sessions in lockstep ends when its message arrives, and the party that waits for it fails if its turns run out before |
| ZrtpLockstep.EveryoneEnds | uvgrtp-2.0.0/src/zrtp.cc:408-614 | after 36 rounds both are over, whatever arrives |
| ZrtpLockstep.ContentionEnds | uvgrtp-2.0.0/src/zrtp.cc:408-614 | after a contention both end well, the larger commitment as initiator and the other as responder, if and only if Commit, DHPart1, DHPart2, Confirm1, Confirm2 and the one Conf2ACK come in time |
| ZrtpLockstep.ContentionEndsForB | uvgrtp-2.0.0/src/zrtp.cc:408-614 | and so they do when the other commitment is the larger one |
| ZrtpLockstep.FoundEnds | uvgrtp-2.0.0/src/zrtp.cc:408-614 | and without a contention, whatever the commitments |
| ZrtpLockstep.TieFails | uvgrtp-2.0.0/src/zrtp.cc:320-335 | with equal commitments a contention makes both fail, even if every message arrives |
| ZrtpLockstep.FewLosses | uvgrtp-2.0.0/src/zrtp.cc:408-614 | if any ten rounds have two without a loss, both end well exactly if the Conf2ACK arrives |
| ZrtpLockstep.NoLoss | uvgrtp-2.0.0/src/zrtp.cc:408-614 | without a loss both end well, with or without a contention |
| ZrtpLockstep.NineLosses | uvgrtp-2.0.0/src/zrtp.cc:435-465 | losses in the first nine rounds are too many |
| ZrtpLockstep.OneLoss | uvgrtp-2.0.0/src/zrtp.cc:566-568 | the loss of the Conf2ACK alone makes the handshake fail |
| ZrtpLockstep.ContentionSessions | uvgrtp-2.0.0/src/zrtp.cc:625-720 | sessions that find nothing at first and then hear each other in lockstep end as the rounds do |
| ZrtpLockstep.FoundSessions | uvgrtp-2.0.0/src/zrtp.cc:625-720 | and so do a session that hears nothing while it sends its first Commit and one that finds that |
| ZrtpSession.Zrtp.InitSession | uvgrtp-2.0.0/src/zrtp.cc:408-470 | the Commit loop is the party's steps, a contention is decided by are_we_initiator, and the role is fixed when it ends well |
| ZrtpSession.Zrtp.DoDhPart1 | uvgrtp-2.0.0/src/zrtp.cc:472-505 | the responder's DHPart1 loop is the party's steps |
| ZrtpSession.Zrtp.DoDhPart2 | uvgrtp-2.0.0/src/zrtp.cc:507-540 | the initiator's DHPart2 loop is the party's steps |
| ZrtpSession.Zrtp.ResponderFinalize | uvgrtp-2.0.0/src/zrtp.cc:542-578 | the responder's Confirm1 loop is the party's steps |
| ZrtpSession.Zrtp.InitiatorFinalize | uvgrtp-2.0.0/src/zrtp.cc:580-614 | the initiator's Confirm2 loop is the party's steps |
| ZrtpSession.Zrtp.InitDhm | uvgrtp-2.0.0/src/zrtp.cc:625-720 | the whole session ends well exactly if the party of the protocol model finishes, in the same role and with the same messages sent |
| ZrtpKeys.SharedSecret | uvgrtp-2.0.0/src/zrtp.cc:122-123 | both sides of the Diffie-Hellman exchange compute the same number |
| ZrtpKeys.SameSecrets | uvgrtp-2.0.0/src/zrtp.cc:120-196 | with opposite roles and the same messages both parties derive the same total hash, s0 and confirm keys |
| ZrtpKeys.KeysAgree | uvgrtp-2.0.0/src/zrtp.cc:761-792 | each party's own key and salt are the other's peer key and salt |
| ZrtpKeys.OwnSaltLength | uvgrtp-2.0.0/src/zrtp.cc:761-792 | every key and salt has the length asked for, narrowed to 32 bits, but a responder's own salt only if its peer's has as many bytes |
| ZrtpKeys.ShortSalt | uvgrtp-2.0.0/src/zrtp.cc:780-787 | a responder that asks for a salt of 112 bits, and one of 96 for its peer, gets 12 bytes |
| ZrtpInputs.TotalHashDepends | uvgrtp-2.0.0/src/zrtp.cc:131-143 | for any two transcripts with messages of the same lengths that differ, some hash function gives different total hashes |
| ZrtpInputs.S0Depends | uvgrtp-2.0.0/src/zrtp.cc:160-183 | for any two inputs that differ in the DH result, an identity or the total hash, some hash function gives different s0 |
| ZrtpInputs.KeyDepends | uvgrtp-2.0.0/src/zrtp.cc:69-102 | for any two keys of at least a byte that differ in s0, purpose, identities, total hash or length, some HMAC function makes them different |
| ZrtpInputs.KeysNeedTheDhResult | uvgrtp-2.0.0/src/zrtp.cc:120-196 | if two sessions compute different numbers in the key exchange then, for some hash and HMAC functions, their s0 differ and no key of one is a key of the other, whatever they have sent and received |
| ZrtpInputs.KeysDiffer | uvgrtp-2.0.0/src/zrtp.cc:187-196 | for some HMAC function the four SRTP keys and six other keys of a session differ pairwise |
| ZrtpInputs.PurposesFitRoles | uvgrtp-2.0.0/src/zrtp.cc:761-792 | a party's own key and salt have the purposes that section 4.5.3 of RFC 6189 gives its role, and the other ones those of its peer's |
| ZrtpInputs.NotTheRfcs | uvgrtp-2.0.0/src/zrtp.cc:69-102 | for every input some HMAC function gives another key than the key derivation function of section 4.5.1 of RFC 6189 |
| ZrtpKeys.Session.HashTranscript | uvgrtp-2.0.0/src/zrtp.cc:131-142 | both branches hash Hello, Commit, DHPart1 and DHPart2 of the right party in the order of RFC 6189, section 4.4.1.4 |
| ZrtpKeys.Session.HashS0 | uvgrtp-2.0.0/src/zrtp.cc:160-183 | the incremental hash over counter, DH result, name, identifiers and total hash is s0 |
| ZrtpKeys.Session.DeriveKey | uvgrtp-2.0.0/src/zrtp.cc:69-102 | the incremental HMAC computes the specified key derivation, of the length narrowed to 32 bits; more than 32 bytes are undefined |
| ZrtpKeys.Session.GenerateSharedSecretsDh | uvgrtp-2.0.0/src/zrtp.cc:120-196 | the incremental hashes, ordered by role, yield the specified secrets, and the DH result is erased |
| ZrtpKeys.Session.GetSrtpKeys | uvgrtp-2.0.0/src/zrtp.cc:761-792 | zero lengths and an uninitialised session are refused, in that order, and lengths beyond a digest are undefined; else the four keys by role |
| Flash.ErasedThenWritten | papilio-prog/progalgspi.cpp:561-880 | a partial erase followed by a write leaves the image in place and everything past the last sector touched as it was |
| Flash.ProgAlgSpi.SetCommandRW | papilio-prog/progalgspi.cpp:116-148 | a command byte followed by the 24-bit address, and nothing else changed |
| Flash.ProgAlgSpi.WriteEnable | papilio-prog/progalgspi.cpp:654-661 | a chip that is not busy ends up write enabled |
| Flash.ProgAlgSpi.WaitReady | papilio-prog/progalgspi.cpp:665-671 | the wait fails exactly if the chip is busy for longer than the limit |
| Flash.ProgAlgSpi.SpiPartialErase | papilio-prog/progalgspi.cpp:643-687 | exactly the sectors that the image touches are blank, the others are as they were |
| Flash.ProgAlgSpi.SpiWrite | papilio-prog/progalgspi.cpp:791-880 | every page of the image is ANDed into the memory, padded with zero up to its page, and nothing else |
| Flash.ProgAlgSpi.SpiVerify | papilio-prog/progalgspi.cpp:891-957 | passes if and only if the memory starts with the image |
| Flash.ProgAlgSpi.ProgramSpi | papilio-prog/progalgspi.cpp:995-1035 | each of the three options; a full run leaves exactly the image and untouched later sectors, an image too large is refused unchanged |
| SlCan.FrameIsHandled | arduino/slcan_controller/SLCan.cpp:58-117 | a printed frame of at most seven bytes calls the first handler of its identifier with the same bytes; eight bytes are undefined |
| SlCan.CapitalsAreHandled | arduino/slcan_controller/SLCan.cpp:30-43 | a frame with any of its hexadecimal digits written as capitals is handled in the same way |
| SlCan.RoundTrip | arduino/slcan_controller/SLCan.cpp:181-200 | any frames sent, with any lines of noise between them, call their handlers once each, in order, with the same bytes |
| SlCan.SLCan.Send | arduino/slcan_controller/SLCan.cpp:119-150 | prints exactly the frame, or nothing when it reports an error, and which arguments are errors |
| SlCan.SLCan.HandleMessage | arduino/slcan_controller/SLCan.cpp:58-117 | the parser on the buffer does what is specified of the text in it |
| SlCan.SLCan.InputChar | arduino/slcan_controller/SLCan.cpp:187-198 | one character enters the buffer, which starts over when full, or ends a line and has it parsed |
| SlCan.SLCan.Input | arduino/slcan_controller/SLCan.cpp:181-200 | characters in, calls out, as specified, and the index never exceeds the buffer |

## Left out

- FtdiHost.Udata.ProcessNextReadJob: USB failures are not modelled beyond the error flag of a reply that is too short.
- Refinement.BatchingRefinesPulses: compares files that the C code gives a meaning, on a device whose TDO depends only on TMS and the TDI bits that are driven, with `syncmode` and `forcemode` off; `BACKGROUND_READ`, `INTERLACED_READ_WRITE` and `ASYNC_WRITE` are compiled out; TRST and SCK do nothing on either host.
- Playing.PlayEndsInReset: a sufficient condition that covers all three modes; the exact one for SVF files is `ResetExact.SvfResetsForEveryHost`.
- SvfPlayer.LibxsvfSvf: a literal with more digits than its buffer holds ends the run as undefined, as in C; decimal numbers are unbounded where C has `int`.
- XsvfPlayer.LibxsvfXsvf: a scatter that leaves the buffer ends the run as undefined, as in C; an XSDRSIZE beyond the range of `int` counts as a failed allocation, and other allocations succeed, with zero bytes.
- XsvfIncrement.XsdrincCounts: for masks that were set after the size and do not overlap; `XsvfPadding.CountsIffDisjoint` and `XsvfIncrement.UpdateDefined` say of one update what happens without.
- XsvfPlayer.DoSize: an allocation within the range of `int` succeeds, and new bytes are zero.
- SvfPlayer.DoFrequency: the number is unbounded where C has `unsigned long`, and passes it on as `int`.
- SvfScan.BitdataParse: bit vectors are values, so the reuse of their memory is not captured.
- ChainScan.PlayScanReports: the chain is what the target shows on TDO, its IDCODEs and then the ones shifted in; the devices' registers are not modelled for the scan.
- Analyze.AnalyzePredicts: for files that are not empty; GPIO operations succeed.
- LazyTms.IOBase.ShiftTDITDO: the transfer itself is what `txrx_block` promises; the reading half of `IOFtdi::txrx_block` does not realign a partial byte and is not modelled.
- JtagChain.Jtag.ShiftDR: a call that only reads (`tdi` null, `tdo` given) is left out, since what TDI shows then depends on the transfer.
- FtdiHost.Udata.SetFrequency: `syncmode` is off; for a frequency of zero the divisor is a parameter, since C leaves open what an infinite one becomes.
- LazyTms.IOBase.TapTestLogicReset: bits must fit the 128-byte buffer, which the C++ code does not check; likewise for the other methods that append.
- JtagMeaning.ShiftDrDelivers: the other devices hold BYPASS, so their data registers are one bit long.
- ZrtpRoles.RolesAgree: Diffie-Hellman mode after the Hello exchange; whether a message parses and passes its checks is decided by the network. Multistream mode, SAS and the retransmission timers are left out.
- ZrtpLockstep.ContentionEnds: in a round each party sends once and hears at most the other's message of that round; sessions that receive at other times are covered one by one by `ZrtpLoops.SessionEnds`.
- ZrtpKeys.KeysAgree: hash, HMAC and byte encodings are uninterpreted; the KDF counter is stored as on a little-endian machine.
- Flash.ProgAlgSpi.ProgramSpi: Macronix and generic parts that answer within the retry limits, images within 24-bit addresses; the bridge over JTAG, identification, whole-chip erase and the other flash families are left out.
- SlCan.RoundTrip: frames of at most seven bytes; `send8`, `send16` and `send32` only call `send`.
- Edge timing within a TCK cycle: a target's TDO is a function of the levels of the cycles so far.
- The callbacks that only report (`report_tapstate`, `report_status`, `report_error`), progress output and sleeping.
- `IOBase::cycleTCK` and the variants of shift that only send or only receive.
- RTP and RTCP parsing, the frame queue, SRTP itself, message bodies of ZRTP and everything else in uvgRTP.
- Command-line parsing, logging, the kernel modules, displays, loggers and motor control.
