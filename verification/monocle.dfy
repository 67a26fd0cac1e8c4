/**
 * The host script of networking/main.py as traces: `send_cmd`, the
 * scripted `send_payload` that deploys the recording program, and
 * `write_text` that shows the transcription on the display.
 */
module Monocle {
  import opened Results
  import opened Bytes
  import opened Trace
  import Gatt
  import Utf8

  /** The pause `send_cmd` takes when no delay is given. */
  const DEFAULT_DELAY: real := 1.0

  /** The command that starts a 5 s, 8000 Hz, 8-bit recording on the device. */
  const RECORD_COMMAND: string :=
    "print('start recording')\nmicrophone.record(seconds=5.0, sample_rate=8000, bit_depth=8)"

  /**
   * The device-side drain loop: read 100-byte chunks from the microphone
   * and send each over the data channel until the microphone is empty,
   * retrying a send until it does not raise OSError. It is sent as one
   * opaque command; its behaviour runs on the device.
   */
  const DRAIN_COMMAND: string :=
    "\nwhile True:\n  chunk = microphone.read(100)\n  if chunk == None:\n    time.sleep(1)\n    break\n"
    + "  while True:\n    try:\n      bluetooth.send(chunk)\n      break\n    except OSError:\n      pass\n"

  /** The commands of `send_payload`, in order, each with the pause after it. */
  const PAYLOAD_COMMANDS: seq<Command> := [
    Command("print('hello world')", 1.0),
    Command("import display, microphone, bluetooth, time", 1.0),
    Command("initial_text = display.Text('hello world', 0, 0, display.WHITE)", 1.0),
    Command("display.show(initial_text);", 1.0),
    Command(RECORD_COMMAND, 5.0),
    Command("print('stop recording')", 1.0),
    Command(DRAIN_COMMAND, 1.0)]

  /**
   * `send_cmd`: one write of the command with its terminator to `channel`,
   * then the pause. Without its terminator the write decodes as exactly `cmd`.
   */
  function SendCmd(cmd: string, channel: string, delay: real := DEFAULT_DELAY): (r: seq<Event>)
    ensures |r| == 2 && r[0].Write? && r[0].characteristic == channel && r[1] == Sleep(delay)
    ensures Terminated(r[0].data) && Utf8.Decode(r[0].data[..|r[0].data| - 1]) == Some(cmd)
    ensures ParseCommands(channel, r) == Some([Command(cmd, delay)])
  {
    ParseCommandEvents(channel, Command(cmd, delay));
    CommandEvents(channel, Command(cmd, delay))
  }

  /** The four events before the command script of `send_payload`. */
  const PAYLOAD_PROLOGUE: seq<Event> :=
    [Subscribe(Gatt.UART_TX_CHAR_UUID), Subscribe(Gatt.DATA_TX_CHAR_UUID), Sleep(5.0), Write(Gatt.UART_RX_CHAR_UUID, RESET)]

  /**
   * `send_payload`: subscribe to the REPL and data TX characteristics, wait
   * for the device, reset its interpreter, run the command script on the
   * REPL RX characteristic, and wait one more second. Both subscriptions
   * come before any write, the raw reset is the first write, and only
   * terminated commands are written after it.
   */
  function SendPayload(): (r: seq<Event>)
    ensures SubscriptionsBeforeWrites(r)
    ensures ResetFirst(r, Gatt.UART_RX_CHAR_UUID)
  {
    var subs := [Subscribe(Gatt.UART_TX_CHAR_UUID), Subscribe(Gatt.DATA_TX_CHAR_UUID)];
    ResetScriptSubscribesFirst(subs, [Sleep(5.0)], Gatt.UART_RX_CHAR_UUID, PAYLOAD_COMMANDS, [Sleep(1.0)]);
    ResetScriptResetsFirst(subs, [Sleep(5.0)], Gatt.UART_RX_CHAR_UUID, PAYLOAD_COMMANDS, [Sleep(1.0)]);
    assert PAYLOAD_PROLOGUE == subs + [Sleep(5.0)] + [Write(Gatt.UART_RX_CHAR_UUID, RESET)];
    PAYLOAD_PROLOGUE
    + Commands(Gatt.UART_RX_CHAR_UUID, PAYLOAD_COMMANDS)
    + [Sleep(1.0)]
  }

  /**
   * The setup of `send_payload`: both subscriptions, the 5 s wait and the
   * raw reset come first, and a final 1 s wait ends the script.
   */
  lemma SendPayloadSetup()
    ensures |SendPayload()| == 4 + 2 * |PAYLOAD_COMMANDS| + 1 == 19
    ensures SendPayload()[0] == Subscribe(Gatt.UART_TX_CHAR_UUID)
    ensures SendPayload()[1] == Subscribe(Gatt.DATA_TX_CHAR_UUID)
    ensures SendPayload()[2] == Sleep(5.0)
    ensures SendPayload()[3] == Write(Gatt.UART_RX_CHAR_UUID, RESET)
    ensures SendPayload()[18] == Sleep(1.0)
  {
    var t := SendPayload();
    ScriptEnds(PAYLOAD_PROLOGUE, Gatt.UART_RX_CHAR_UUID, PAYLOAD_COMMANDS, [Sleep(1.0)]);
    assert t[..4] == PAYLOAD_PROLOGUE && t[18..] == [Sleep(1.0)];
    assert t[0] == t[..4][0] && t[1] == t[..4][1] && t[2] == t[..4][2] && t[3] == t[..4][3];
    assert t[18] == t[18..][0];
  }

  /**
   * The command script of `send_payload`: each command is written,
   * terminated, on the REPL RX characteristic in the order of
   * `PAYLOAD_COMMANDS`, and the script reads back as that list.
   */
  lemma SendPayloadCommands()
    ensures ParseCommands(Gatt.UART_RX_CHAR_UUID, SendPayload()[4..18]) == Some(PAYLOAD_COMMANDS)
    ensures forall i :: 0 <= i < |PAYLOAD_COMMANDS| ==>
      SendPayload()[4 + 2 * i] == Write(Gatt.UART_RX_CHAR_UUID, Frame(PAYLOAD_COMMANDS[i].text))
  {
    ScriptShape(PAYLOAD_PROLOGUE, Gatt.UART_RX_CHAR_UUID, PAYLOAD_COMMANDS, [Sleep(1.0)]);
    ParseCommandsInverse(Gatt.UART_RX_CHAR_UUID, PAYLOAD_COMMANDS);
  }

  /**
   * The pacing of `send_payload`: the recording command is followed by a
   * 5 s pause, every other command by 1 s.
   */
  lemma SendPayloadPacing()
    ensures SendPayload()[12] == Write(Gatt.UART_RX_CHAR_UUID, Frame(RECORD_COMMAND))
    ensures SendPayload()[13] == Sleep(5.0)
    ensures forall i :: 0 <= i < |PAYLOAD_COMMANDS| && i != 4 ==> SendPayload()[4 + 2 * i + 1] == Sleep(1.0)
  {
    var P := PAYLOAD_COMMANDS;
    ScriptShape(PAYLOAD_PROLOGUE, Gatt.UART_RX_CHAR_UUID, P, [Sleep(1.0)]);
    PayloadDelays();
    assert SendPayload()[4 + 2 * 4] == Write(Gatt.UART_RX_CHAR_UUID, Frame(P[4].text));
    assert SendPayload()[4 + 2 * 4 + 1] == Sleep(P[4].delay);
    forall i | 0 <= i < |P| && i != 4
      ensures SendPayload()[4 + 2 * i + 1] == Sleep(1.0)
    {
      assert SendPayload()[4 + 2 * i + 1] == Sleep(P[i].delay);
    }
  }

  /** Only the recording command waits 5 s. */
  lemma PayloadDelays()
    ensures PAYLOAD_COMMANDS[4].text == RECORD_COMMAND
    ensures forall i :: 0 <= i < |PAYLOAD_COMMANDS| ==> PAYLOAD_COMMANDS[i].delay == if i == 4 then 5.0 else 1.0
  {
  }

  /** The text command of `write_text` opens and closes a string literal around the transcript. */
  const TEXT_PREFIX: string := "transcript = display.Text('"
  const TEXT_SUFFIX: string := "', 0, 0, display.WHITE)"

  /** The commands of `write_text`, in order; the transcript is spliced in unescaped. */
  function TextCommands(transcript: string): seq<Command>
  {
    [Command("print('transcription')", DEFAULT_DELAY),
     Command("import display, microphone, bluetooth, time", DEFAULT_DELAY),
     Command(TEXT_PREFIX + transcript + TEXT_SUFFIX, DEFAULT_DELAY),
     Command("display.show(transcript);", DEFAULT_DELAY)]
  }

  /** `write_text`: reset the interpreter, then the four display commands on the REPL RX characteristic. */
  function WriteText(transcript: string): (t: seq<Event>)
    ensures |t| == 9
  {
    [Write(Gatt.UART_RX_CHAR_UUID, RESET)] + Commands(Gatt.UART_RX_CHAR_UUID, TextCommands(transcript))
  }

  /**
   * `write_text` neither subscribes nor waits before writing: its first
   * event is the raw reset, and only terminated commands are written after it.
   */
  lemma WriteTextOrdering(transcript: string)
    ensures WriteText(transcript)[0] == Write(Gatt.UART_RX_CHAR_UUID, RESET)
    ensures ResetFirst(WriteText(transcript), Gatt.UART_RX_CHAR_UUID)
    ensures NeverSubscribes(WriteText(transcript))
  {
    var rx := Gatt.UART_RX_CHAR_UUID;
    var cs := TextCommands(transcript);
    var c := Commands(rx, cs);
    ResetBeforeCommands(rx, cs);
    CommandsNeverSubscribe(rx, cs);
    NeverSubscribesAppend([Write(rx, RESET)], c);
  }

  /** The commands of `write_text` read back as `TextCommands(transcript)`. */
  lemma WriteTextCommands(transcript: string)
    ensures ParseCommands(Gatt.UART_RX_CHAR_UUID, WriteText(transcript)[1..]) == Some(TextCommands(transcript))
  {
    var rx := Gatt.UART_RX_CHAR_UUID;
    ParseCommandsInverse(rx, TextCommands(transcript));
    assert WriteText(transcript)[1..] == Commands(rx, TextCommands(transcript));
  }

  /** Every wait `write_text` makes is 1 s. */
  lemma WriteTextPacing(transcript: string)
    ensures forall k :: 0 <= k < 9 && WriteText(transcript)[k].Sleep? ==> WriteText(transcript)[k] == Sleep(1.0)
  {
    UniformPaceAfter([Write(Gatt.UART_RX_CHAR_UUID, RESET)], Gatt.UART_RX_CHAR_UUID, TextCommands(transcript), DEFAULT_DELAY);
  }

  /** The third event of the display commands is the frame of the transcript spliced into its template. */
  lemma WriteTextThirdFrame(transcript: string)
    ensures WriteText(transcript)[5] == Write(Gatt.UART_RX_CHAR_UUID, Frame(TEXT_PREFIX + transcript + TEXT_SUFFIX))
  {
    var rx := Gatt.UART_RX_CHAR_UUID;
    CommandAfter(Write(rx, RESET), rx, TextCommands(transcript), 2);
  }

  /**
   * The transcript reaches the device verbatim: the third command's bytes
   * are the prefix, the transcript's own UTF-8 bytes and the suffix, then
   * the terminator.
   */
  lemma WriteTextVerbatim(transcript: string)
    ensures WriteText(transcript)[5]
      == Write(Gatt.UART_RX_CHAR_UUID,
           Utf8.Encode(TEXT_PREFIX) + Utf8.Encode(transcript) + Utf8.Encode(TEXT_SUFFIX) + [EOT])
  {
    WriteTextThirdFrame(transcript);
    FrameOfParts(TEXT_PREFIX, transcript, TEXT_SUFFIX);
  }

  /** The fixed parts of the display command never contain the terminator. */
  lemma TemplateUnescaped()
    ensures '\U{4}' !in TEXT_PREFIX && '\U{4}' !in TEXT_SUFFIX
  {
  }

  /**
   * Nothing in the transcript is escaped: its command carries an early
   * terminator exactly when the transcript contains U+0004.
   */
  lemma WriteTextUnescaped(transcript: string)
    ensures WriteText(transcript)[5].Write?
    ensures var d := WriteText(transcript)[5].data;
      |d| > 0 && ((EOT in d[..|d| - 1]) <==> ('\U{4}' in transcript))
  {
    WriteTextThirdFrame(transcript);
    TemplateUnescaped();
    FrameOfPartsUnescaped(TEXT_PREFIX, transcript, TEXT_SUFFIX);
  }
}
