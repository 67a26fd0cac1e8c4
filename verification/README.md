# BridgeAR networking core in Dafny

A model of the host side of BridgeAR's Bluetooth link to the Monocle glasses,
as written in `networking/main.py` (the audio server) and `networking/server.py`
(the standalone REPL client). It covers these pieces:

- **Audio buffer** (`audio.dfy`, `wave.dfy`). The `MonocleAudioServer` buffer starts as a
  literal 44-byte RIFF/WAVE header. Each data notification is mapped from signed to unsigned
  8-bit samples and appended. `process_audio` then patches the two size fields.
- **Command framing and host scripts** (`trace.dfy`, `monocle.dfy`, `server.dfy`). Each script
  is a pure function that returns a trace of `Subscribe`, `Sleep` and `Write` events:
  - `send_cmd` writes the UTF-8 bytes of the command followed by 0x04 (ctrl-D), then pauses.
  - `send_payload`, `write_text` and `connect` are fixed scripts; `connect` is run by a
    step interpreter (below).
  - A parser reads a trace back as paced commands; it is the partner of the framing.
- **UTF-8** (`utf8.dfy`). Python's `str.encode()`, with a strict decoder as its partner.
- **Discovery** (`discovery.dfy`). `match_repl_uuid`, and the scan that takes the first
  advertisement it accepts.
- **Hex rendering** (`hex.dfy`). `bytes.hex(' ', 1)` as used for data notifications in
  `server.py`, with a parser as its partner.

In three places the code does something other than what the WAVE form or the names suggest;
the model follows the code:

- **Size fields are big-endian.** `int.to_bytes(4)` with no byte order writes big-endian since
  Python 3.11, while the WAVE form and the rest of the header are little-endian. The model
  writes big-endian sizes. `FinalizedHeaderAsRead` states what a little-endian reader then
  sees: byte-swapped sizes.
- **Matching is case-sensitive on the advertised side.** Only the constant UUID is
  lower-cased. An advertised UUID in upper or mixed case is not accepted
  (`Discovery.MixedCaseNotMatched`).
- **`connect` raises TypeError.** In `server.py`, lines 72-74 call `send_cmd` with one argument
  instead of three, so `connect` raises TypeError there. The model runs the script through an
  interpreter that stops at the first call Python rejects. The 3 s wait at line 76 therefore
  never happens.

## Model

| member | source | states |
|---|---|---|
| Bytes.ToBytesBE32 | networking/main.py:162-163 | `to_bytes(4)` gives four bytes that read back big-endian as the value; values of 2^32 or more are excluded, as Python raises OverflowError for them |
| Bytes.ReadBE32Injective | networking/main.py:162-163 | four bytes read big-endian and written back with `to_bytes(4)` are the same four bytes, so the written form is unique |
| Bytes.ToBytesLE32 | networking/main.py:23-25 | the little-endian 32-bit form that the header fields use reads back as its value |
| Bytes.ToBytesLE16 | networking/main.py:23-25 | the little-endian 16-bit form that the header fields use reads back as its value |
| Bytes.ReadLE32Injective | networking/main.py:23-25 | a 32-bit little-endian field is determined by the value read from it |
| Bytes.ReadLE16Injective | networking/main.py:23-25 | a 16-bit little-endian field is determined by the value read from it |
| Bytes.SwapSmall | networking/main.py:162-163 | a big-endian size from 1 to 255, read little-endian, comes out 2^24 times larger and never equal |
| Bytes.SwapInvolution | networking/main.py:162-163 | reversing the byte order twice gives back the size |
| Wave.DecodeEncodeHeader | networking/main.py:23-25 | every representable WAVE header, laid out and read back by a little-endian reader, is the same header |
| Wave.EncodeDecodeHeader | networking/main.py:23-25 | any header the reader accepts is exactly the layout of the fields it read |
| Wave.EncodedTags | networking/main.py:23-25 | the layout places "RIFF", "WAVE", "fmt " and "data" at bytes 0, 8, 12 and 36 |
| Wave.EncodedChunkFields | networking/main.py:23-25 | the layout places the RIFF size, the 16-byte fmt size and the data size at bytes 4, 16 and 40 |
| Wave.EncodedFormatFields | networking/main.py:23-25 | the layout places format tag, channels, sample rate, byte rate, block align and bits per sample at bytes 20 to 36 |
| Audio.HeaderTags | networking/main.py:23-25 | the literal header carries the four WAVE tags at their offsets |
| Audio.HeaderSizes | networking/main.py:23-25 | the literal header's RIFF and data sizes read as 0, and its fmt chunk size reads as 16 |
| Audio.HeaderFields | networking/main.py:23-25 | the literal header reads as format 1, 1 channel, 8000 Hz, 8000 B/s, block align 1, 8 bits |
| Audio.WavHeaderDecodes | networking/main.py:22-25 | a WAVE reader finds 8-bit mono 8000 Hz PCM with both sizes zero in the literal header |
| Audio.WavHeaderLayout | networking/main.py:22-25 | the literal header is 44 bytes, and it is exactly the WAVE layout of a representable, self-consistent PCM format |
| Audio.SignedSample | networking/main.py:102 | numpy's int8 view of a byte is the value in -128..127 that agrees with the byte modulo 256 |
| Audio.ToUnsigned | networking/main.py:94-103 | the converted byte, read as offset-binary (minus 0x80), is the same signed sample |
| Audio.ToUnsignedIsReference | networking/main.py:99 | the conversion agrees on every byte with the reference form `(c + 0x80) & 0xff` |
| Audio.ToUnsignedInvolution | networking/main.py:99-103 | converting twice gives back the byte, so the map is a bijection on bytes |
| Audio.ToUnsignedBoundaries | networking/main.py:94-103 | -128, -1, 0 and 127 map to 0x00, 0x7F, 0x80 and 0xFF |
| Audio.Convert | networking/main.py:102-104 | a fragment is converted byte by byte, with length and order kept |
| Audio.New | networking/main.py:73 | a new server's buffer is 44 bytes, and a WAVE reader decodes it as the 8-bit mono 8000 Hz format |
| Audio.HandleDataTx | networking/main.py:93-104 | a notification grows the buffer by exactly the payload length, keeps every earlier byte, and appends the converted payload in order |
| Audio.ProcessAudio | networking/main.py:160-163 | the patch keeps the length; bytes 4..8 read big-endian as len-8 and bytes 40..44 as len-44; every other byte is unchanged |
| Audio.Overwrite | networking/main.py:162-163 | slice assignment of an equal-length value: the slice becomes the value and nothing else changes |
| Audio.ProcessAudioIdempotent | networking/main.py:160-163 | patching an already patched buffer changes nothing |
| Audio.Capture | networking/main.py:73-104 | after construction and any fragments, the buffer still starts with the untouched 44-byte header, since notifications only append |
| Audio.CaptureLayout | networking/main.py:73-104 | after construction and fragments F1..Fn, the buffer is the untouched header followed by the converted fragments in order, and its length is 44 + the sum of the fragment lengths |
| Audio.ConvertedLength | networking/main.py:102-104 | the converted fragments take exactly as many bytes as were received |
| Audio.FinalizedSizes | networking/main.py:162-163 | after fragments F1..Fn, the patched data size is the sum of the fragment lengths and the RIFF size is 36 more |
| Audio.FinalizedSamples | networking/main.py:162-163 | finalizing leaves the converted samples behind the header untouched |
| Audio.PatchKeepsTags | networking/main.py:162-163 | the patch keeps the four tags of the header |
| Audio.PatchKeepsFields | networking/main.py:162-163 | the patch keeps the fmt chunk size and the format fields |
| Audio.FinalizedHeaderAsRead | networking/main.py:162-163 | a little-endian WAVE reader sees the original format fields and byte-swapped RIFF and data sizes |
| Utf8.EncodeChar | networking/main.py:113 | each character takes 1 to 4 bytes: 1 exactly for ASCII, and continuation bytes after the first |
| Utf8.Encode | networking/main.py:113 | `str.encode()` takes between 1 and 4 bytes per character |
| Utf8.EncodeAppend | networking/main.py:113 | the encoding of a concatenation is the concatenation of the encodings |
| Utf8.DecodeFirst | networking/main.py:113 | a decoded leading character is exactly the encoding of that character |
| Utf8.DecodeFirstEncodeChar | networking/main.py:113 | the decoder reads each character's encoding back as that character and its length |
| Utf8.Decode | networking/main.py:113 | whatever the decoder accepts re-encodes to the input |
| Utf8.DecodeEncode | networking/main.py:113 | every string survives encoding and decoding |
| Utf8.AsciiByteIn | networking/main.py:113 | an ASCII character occurs in a string exactly when its byte occurs in the string's encoding |
| Trace.Frame | networking/main.py:113 | a command's frame ends in 0x04, decodes to the command without that byte, and has an earlier 0x04 only if the command contains U+0004 |
| Trace.FrameOfParts | networking/main.py:180 | the frame of a command built from three parts is their three encodings followed by 0x04 |
| Trace.FrameOfPartsUnescaped | networking/main.py:180 | text spliced between parts without U+0004 puts an early 0x04 in the frame exactly when the text has U+0004 |
| Trace.ResetIsRaw | networking/main.py:132 | the raw reset 0x03 0x01 is not a terminated command and contains no 0x04 |
| Trace.Commands | networking/main.py:106-114 | a paced command list has two events per command |
| Trace.CommandsAppend | networking/main.py:133-157 | consecutive command lists lay out their events end to end |
| Trace.ParseCommandEvents | networking/main.py:113-114 | the write and pause of one command read back as that command |
| Trace.ParseCommandsInverse | networking/main.py:106-114 | the events of any command list are read back as that list |
| Trace.CommandsShape | networking/main.py:106-114 | command i is written at position 2i and its pause is at 2i+1 |
| Trace.CommandAfter | networking/main.py:177-181 | behind one leading event, command i is written at position 2i+1 |
| Trace.Writes | networking/main.py:113 | the writes of a trace are write events, and there are no more of them than events |
| Trace.WritesOfCommands | networking/main.py:106-114 | the writes of a command list are exactly its frames, in order |
| Trace.CommandsNeverSubscribe | networking/main.py:106-114 | a command list never subscribes |
| Trace.CommandsUniformPace | networking/main.py:114 | when every command pauses for d, every wait of the list is d |
| Trace.UniformPaceAfter | networking/main.py:114 | behind any prologue, the waits of such a command list are all d |
| Trace.ScriptShape | networking/main.py:116-158 | a script is its prologue, then command i's write at 2i and pause at 2i+1, then the epilogue |
| Trace.SubscribeThenRest | networking/main.py:121-122 | subscriptions followed by a subscription-free rest subscribe before any write |
| Trace.CommandWritesTerminated | networking/main.py:113 | every write of a command list carries a terminated command |
| Trace.ResetThenCommands | networking/main.py:132-133 | the raw reset followed by commands makes the reset the first write, and only terminated commands follow it |
| Trace.ResetScriptSubscribesFirst | networking/main.py:121-132 | a script of subscriptions, waits, reset, commands and waits subscribes before any write |
| Trace.ResetScriptResetsFirst | networking/main.py:131-133 | in such a script the reset is the first write, and every later write is a terminated command |
| Monocle.SendCmd | networking/main.py:106-114 | `send_cmd` writes one terminated frame to the channel that decodes to the command, then pauses for the given delay (1.0 by default); the pair reads back as that one command |
| Monocle.SendPayloadSetup | networking/main.py:121-158 | `send_payload` subscribes to REPL TX then data TX, waits 5 s, writes the reset, and ends with a 1 s wait; 19 events in all |
| Monocle.SendPayload | networking/main.py:116-158 | `send_payload` subscribes before any write; the reset is its first write, and only terminated commands follow |
| Monocle.SendPayloadCommands | networking/main.py:133-157 | the seven commands are written in source order on the REPL RX characteristic and read back as that list |
| Monocle.SendPayloadPacing | networking/main.py:141 | the recording command is followed by a 5 s wait and every other command by 1 s |
| Monocle.PayloadDelays | networking/main.py:133-157 | only the fifth command, the recording one, has a 5 s delay |
| Monocle.WriteText | networking/main.py:172-181 | `write_text` makes nine events |
| Monocle.WriteTextOrdering | networking/main.py:177-181 | `write_text` starts with the reset, never subscribes, and writes only terminated commands after the reset |
| Monocle.WriteTextCommands | networking/main.py:178-181 | the events after the reset read back as the four display commands |
| Monocle.WriteTextPacing | networking/main.py:178-181 | every wait of `write_text` lasts 1 s |
| Monocle.WriteTextThirdFrame | networking/main.py:180 | the third command is the transcript spliced into its template |
| Monocle.WriteTextVerbatim | networking/main.py:180 | the third frame is the template prefix's bytes, the transcript's own UTF-8 bytes, the suffix's bytes, then 0x04 |
| Monocle.TemplateUnescaped | networking/main.py:180 | the fixed template parts contain no U+0004 |
| Monocle.WriteTextUnescaped | networking/main.py:180 | the third frame has an early terminator exactly when the transcript contains U+0004, since nothing is escaped |
| ReplServer.SendCmd | networking/server.py:52-54 | this client's `send_cmd` writes one frame and then always pauses 1 s; the pair reads back as that command |
| ReplServer.SendCmdAgrees | networking/server.py:52-54 | it produces the same events as the audio server's `send_cmd` with its default delay |
| ReplServer.Step | networking/server.py:72-74 | a call fails exactly when it is a `send_cmd` call missing the client and characteristic |
| ReplServer.Exec | networking/server.py:57-76 | a run that does not raise has made every call, each with one or two events |
| ReplServer.ExecRaises | networking/server.py:57-76 | a run of calls raises exactly when one of its calls cannot be made |
| ReplServer.ExecAppend | networking/server.py:57-76 | running two call lists in a row: the second runs only when the first did not raise, and it continues the first's trace |
| ReplServer.CommandCalls | networking/server.py:68-71 | there is one `send_cmd` call per command |
| ReplServer.ExecCommandCalls | networking/server.py:68-71 | well-formed `send_cmd` calls never raise, and they emit the paced command list |
| ReplServer.ExecSetup | networking/server.py:59-67 | the setup calls make the two subscriptions, the 7 s wait and the reset, and do not raise |
| ReplServer.ExecTail | networking/server.py:72-76 | the tail raises TypeError at its first call, before any event |
| ReplServer.ExecScript | networking/server.py:57-76 | setup, well-formed commands and a raising tail produce the setup's and the commands' events, then TypeError |
| ReplServer.ConnectCalls | networking/server.py:57-76 | `connect` makes twelve awaited calls; the first eight can be made, and the ninth (line 72) cannot |
| ReplServer.Connect | networking/server.py:57-76 | `connect` ends in TypeError after the setup and the four well-formed commands, so the 3 s wait never happens; it subscribes before any write, and the reset is its first write |
| ReplServer.ConnectTrace | networking/server.py:59-71 | `connect` makes 12 events: the setup, then the four commands of lines 68-71 in order on REPL RX |
| ReplServer.ConnectPacing | networking/server.py:66-71 | every wait of `connect` is the 7 s one or a 1 s command pause |
| ReplServer.ConnectOrdering | networking/server.py:59-71 | both subscriptions come before any write; the reset is the first write, and only terminated commands follow |
| Hex.Digit | networking/server.py:47 | a nibble is written as one of the lower-case digits 0-9 a-f |
| Hex.DigitValue | networking/server.py:47 | a character is read as a nibble exactly when it is such a digit, and the nibble's digit is that character |
| Hex.DigitValueOfDigit | networking/server.py:47 | every nibble's digit reads back as the nibble |
| Hex.DigitTable | networking/server.py:47 | nibble n's digit is character n of "0123456789abcdef" |
| Hex.HexByte | networking/server.py:47 | a byte is written as two digits |
| Hex.Render | networking/server.py:47 | n bytes render as 3n-1 characters (none for an empty payload); spaces stand exactly at positions 2, 5, 8, ...; byte i's high and low nibbles sit at 3i and 3i+1 |
| Hex.ParseHexByte | networking/server.py:47 | a rendered byte reads back as itself |
| Hex.ParseRender | networking/server.py:47 | every payload survives rendering and reading back |
| Hex.RenderParse | networking/server.py:47 | whatever the parser accepts is the rendering of what it returns |
| Discovery.LowerChar | networking/main.py:32 | ASCII lower-casing leaves no capital: a capital becomes the small letter at the same place in the alphabet, and other characters are kept |
| Discovery.Lower | networking/main.py:32 | ASCII lower-casing keeps the length, leaves no capital letter, and works character by character |
| Discovery.LowerIdempotent | networking/main.py:32 | lower-casing an already lower-cased string changes nothing |
| Discovery.LowerFixed | networking/main.py:32 | ASCII lower-casing leaves a string unchanged exactly when it has no upper-case letter |
| Discovery.ServiceUuidIsLower | networking/main.py:14 | the REPL service UUID constant has no upper-case letter |
| Discovery.MatchReplUuid | networking/main.py:30-32 | a device is accepted exactly when its advertised UUID list contains "6e400001-b5a3-f393-e0a9-e50e24dcca9e" verbatim |
| Discovery.MixedCaseNotMatched | networking/server.py:25-27 | a device advertising the UUID with one letter upper-cased is not accepted, although lower-casing its UUID would give the one looked for |
| Discovery.MatchIgnoresOtherFields | networking/server.py:25-27 | acceptance depends on the service UUID list alone, not on the name or signal strength |
| Discovery.FirstMatch | networking/main.py:34 | the position found, if any, is an accepted advertisement |
| Discovery.FirstMatchIsFirst | networking/main.py:34 | a position is found exactly when some advertisement is accepted, and no earlier one is |
| Discovery.FindDevice | networking/server.py:30-31 | the scan returns the first accepted advertisement, or none when the scan ends without one |

## Left out

- Bleak I/O. Scanning, connecting and disconnecting, `write_gatt_char`, `start_notify`, the
  service and characteristic lookups, and `register_uuids` are foreign calls. They appear only
  as trace events. Characteristics are named by their UUID.
- `handle_disconnect`, which cancels every asyncio task. It is concurrency and has no
  sequential contract.
- Real time. `asyncio.sleep` is recorded as a `Sleep(seconds)` event with its argument.
- Other side effects and external calls:
  - printing to stdout and stderr;
  - `data.decode()` in the notification handlers (`handle_repl_tx`, `handle_repl_rx`, and the
    tail of `handle_data_rx`);
  - writing `/tmp/audio.wav`;
  - `transcribe` (Whisper) and `translate` (OpenAI).
- The NumPy dtype promotion in `handle_data_tx`. The byte map is modelled as the per-byte
  reference form in the source's own comment. `ToUnsignedIsReference` shows that the signed
  view agrees with it.
- The device-side MicroPython, including the drain loop sent by `send_payload` and
  networking/client.py. The drain loop is an opaque command string; its retry semantics run
  on the device.
- `main()` and `get_device_and_connect()`, which only chain the modelled operations. Also the
  `async with` exit that disconnects.
- Discovery.FindDevice: a finite sequence of advertisements stands for the scan. Its end
  stands for the scanner's timeout. The scanner's de-duplication of devices is not modelled.
- Utf8.Encode: a Python `str` may hold a lone surrogate (U+D800 to U+DFFF), and then `.encode()`
  raises UnicodeEncodeError, so `send_cmd` and `write_text` fail on such text. Dafny's `char`
  holds only Unicode scalar values, so the model cannot build such a string, and this error path
  is not modelled.
- Discovery.Lower: ASCII lower-casing only. Python's `str.lower()` also lower-cases non-ASCII
  letters, and it can lengthen a string ('İ' becomes two code points). The only string the code
  lower-cases is the ASCII constant UUID, so `MatchReplUuid` is exact.
- Audio.ProcessAudio: the 2^32 + 8 bound on the buffer length is a precondition. Above it
  Python raises OverflowError, which the model does not produce as a value.
- networking/speech.py, transcription/, classifier/ and computer_vision/ are not part of this
  model. They are thin wrappers around machine-learning libraries.
