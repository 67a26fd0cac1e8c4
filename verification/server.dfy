/**
 * The standalone REPL client of networking/server.py: its `send_cmd`, and
 * its `connect` script run step by step. Three calls of that script pass
 * `send_cmd` only the command, without the client and the characteristic;
 * Python rejects such a call with TypeError before anything is sent, so the
 * script is modelled as a list of calls run by an interpreter that stops at
 * the first call it cannot make.
 */
module ReplServer {
  import opened Results
  import opened Bytes
  import opened Trace
  import Gatt
  import Monocle

  /** The fixed pause after every command of this client. */
  const PAUSE: real := 1.0

  /**
   * `send_cmd`: the framed command written to `channel`, then always a 1 s
   * pause; unlike the audio server's, the pause cannot be chosen.
   */
  function SendCmd(cmd: string, channel: string): (r: seq<Event>)
    ensures |r| == 2 && r[1] == Sleep(PAUSE)
    ensures ParseCommands(channel, r) == Some([Command(cmd, PAUSE)])
  {
    ParseCommandEvents(channel, Command(cmd, PAUSE));
    CommandEvents(channel, Command(cmd, PAUSE))
  }

  /** This client's `send_cmd` writes what the audio server's does with its default pause. */
  lemma SendCmdAgrees(cmd: string, channel: string)
    ensures SendCmd(cmd, channel) == Monocle.SendCmd(cmd, channel)
  {
  }

  /** An awaited call of the script; a `send_cmd` call without a characteristic lacks arguments. */
  datatype Call =
    | StartNotify(characteristic: string)
    | AsyncSleep(seconds: real)
    | WriteGattChar(characteristic: string, data: seq<byte>)
    | SendCmdCall(cmd: string, channel: Option<string>)

  /** The exception a call with missing positional arguments raises. */
  datatype Fault = TypeError

  /** What a run of calls did: the events it caused and the exception it ended with, if any. */
  datatype Outcome = Outcome(trace: seq<Event>, raised: Option<Fault>)

  /** The events of one call, or None when Python rejects the call itself. */
  function Step(c: Call): (r: Option<seq<Event>>)
    ensures r.None? <==> c.SendCmdCall? && c.channel.None?
  {
    match c
    case StartNotify(ch) => Some([Subscribe(ch)])
    case AsyncSleep(s) => Some([Sleep(s)])
    case WriteGattChar(ch, d) => Some([Write(ch, d)])
    case SendCmdCall(cmd, Some(ch)) => Some(SendCmd(cmd, ch))
    case SendCmdCall(_, None) => None
  }

  /**
   * Runs the calls in order, stopping at the first one that raises. A run
   * that does not raise has made every call, each with one or two events.
   */
  function Exec(calls: seq<Call>): (r: Outcome)
    ensures r.raised.None? ==> |calls| <= |r.trace| <= 2 * |calls|
    decreases |calls|
  {
    if |calls| == 0 then Outcome([], None)
    else
      match Step(calls[0])
      case None => Outcome([], Some(TypeError))
      case Some(evs) =>
        var rest := Exec(calls[1..]);
        Outcome(evs + rest.trace, rest.raised)
  }

  /** A run raises exactly when one of its calls cannot be made. */
  lemma {:induction false} ExecRaises(calls: seq<Call>)
    ensures Exec(calls).raised.None? <==> forall i :: 0 <= i < |calls| ==> Step(calls[i]).Some?
  {
    if |calls| != 0 && Step(calls[0]).Some? {
      ExecRaises(calls[1..]);
      assert forall i :: 1 <= i < |calls| ==> calls[i] == calls[1..][i - 1];
    }
  }

  /**
   * Running two call lists one after the other: the second runs only when
   * the first finished without raising, and then continues its trace.
   */
  lemma {:induction false} ExecAppend(a: seq<Call>, b: seq<Call>)
    ensures Exec(a + b) ==
      if Exec(a).raised.Some? then Exec(a)
      else Outcome(Exec(a).trace + Exec(b).trace, Exec(b).raised)
  {
    if |a| == 0 {
      assert a + b == b;
    } else {
      assert (a + b)[0] == a[0];
      assert (a + b)[1..] == a[1..] + b;
      ExecAppend(a[1..], b);
      match Step(a[0])
      case None =>
      case Some(evs) =>
        var r := Exec(a[1..]);
        if r.raised.None? {
          assert evs + (r.trace + Exec(b).trace) == evs + r.trace + Exec(b).trace;
        }
    }
  }

  /** The commands as awaited `send_cmd` calls on `channel`; their pauses are this client's fixed one. */
  function CommandCalls(channel: string, cs: seq<Command>): (r: seq<Call>)
    ensures |r| == |cs|
  {
    seq(|cs|, i requires 0 <= i < |cs| => SendCmdCall(cs[i].text, Some(channel)))
  }

  /** Well-formed `send_cmd` calls never raise and emit the paced command list. */
  lemma {:induction false} ExecCommandCalls(channel: string, cs: seq<Command>)
    requires forall i :: 0 <= i < |cs| ==> cs[i].delay == PAUSE
    ensures Exec(CommandCalls(channel, cs)) == Outcome(Commands(channel, cs), None)
  {
    if |cs| != 0 {
      var calls := CommandCalls(channel, cs);
      assert calls[1..] == CommandCalls(channel, cs[1..]);
      ExecCommandCalls(channel, cs[1..]);
      CommandsCons(channel, cs);
    }
  }

  /** Lines 59-67: subscribe to both TX characteristics, wait 7 s, reset the interpreter. */
  const CONNECT_SETUP: seq<Call> := [
    StartNotify(Gatt.UART_TX_CHAR_UUID),
    StartNotify(Gatt.DATA_TX_CHAR_UUID),
    AsyncSleep(7.0),
    WriteGattChar(Gatt.UART_RX_CHAR_UUID, RESET)]

  /** Lines 68-71: the commands sent with all their arguments. */
  const CONNECT_COMMANDS: seq<Command> := [
    Command("print('hello world')", PAUSE),
    Command("import display", PAUSE),
    Command("initial_text = display.Text('hello world', 0, 0, display.WHITE)", PAUSE),
    Command("display.show(initial_text);", PAUSE)]

  /** Lines 72-76: three calls that pass only the command, then the 3 s wait. */
  const CONNECT_TAIL: seq<Call> := [
    SendCmdCall("bluetooth.connected()", None),
    SendCmdCall("len = bluetooth.max_length()", None),
    SendCmdCall("str = 'world hello!'", None),
    AsyncSleep(3.0)]

  /**
   * The body of `connect`, call by call: twelve calls, of which the first
   * eight can be made and the ninth, line 72, cannot.
   */
  function ConnectCalls(): (r: seq<Call>)
    ensures |r| == 12
    ensures forall i :: 0 <= i < 8 ==> Step(r[i]).Some?
    ensures Step(r[8]).None?
  {
    CONNECT_SETUP + CommandCalls(Gatt.UART_RX_CHAR_UUID, CONNECT_COMMANDS) + CONNECT_TAIL
  }


  /** The events of the setup calls, which never raise. */
  const CONNECT_PROLOGUE: seq<Event> := [
    Subscribe(Gatt.UART_TX_CHAR_UUID),
    Subscribe(Gatt.DATA_TX_CHAR_UUID),
    Sleep(7.0),
    Write(Gatt.UART_RX_CHAR_UUID, RESET)]

  lemma ExecSetup()
    ensures Exec(CONNECT_SETUP) == Outcome(CONNECT_PROLOGUE, None)
  {
    var s := CONNECT_SETUP;
    assert s[1..][1..][1..][1..] == [];
    assert Exec(s[1..][1..][1..]) == Outcome([Write(Gatt.UART_RX_CHAR_UUID, RESET)], None);
    assert Exec(s[1..][1..]) == Outcome([Sleep(7.0), Write(Gatt.UART_RX_CHAR_UUID, RESET)], None);
  }

  lemma ExecTail()
    ensures Exec(CONNECT_TAIL) == Outcome([], Some(TypeError))
  {
  }

  /**
   * A script of setup calls, well-formed commands and then a call that
   * raises: its events are the setup's and the commands', and it raises.
   */
  lemma ExecScript(setup: seq<Call>, events: seq<Event>, channel: string, cs: seq<Command>, tail: seq<Call>)
    requires Exec(setup) == Outcome(events, None)
    requires forall i :: 0 <= i < |cs| ==> cs[i].delay == PAUSE
    requires Exec(tail) == Outcome([], Some(TypeError))
    ensures Exec(setup + CommandCalls(channel, cs) + tail) == Outcome(events + Commands(channel, cs), Some(TypeError))
  {
    var cmds := CommandCalls(channel, cs);
    assert setup + cmds + tail == setup + (cmds + tail);
    ExecAppend(setup, cmds + tail);
    ExecAppend(cmds, tail);
    ExecCommandCalls(channel, cs);
  }

  /**
   * The events `connect` causes: both subscriptions, the 7 s wait and the
   * reset, then the four well-formed commands on the REPL RX characteristic.
   */
  function ConnectEvents(): seq<Event>
  {
    CONNECT_PROLOGUE + Commands(Gatt.UART_RX_CHAR_UUID, CONNECT_COMMANDS)
  }

  /**
   * The events of `connect`: the setup first, then the commands of lines
   * 68-71 in order, which read back as `CONNECT_COMMANDS`.
   */
  lemma ConnectTrace()
    ensures |ConnectEvents()| == 12
    ensures ConnectEvents()[..4] == CONNECT_PROLOGUE
    ensures ParseCommands(Gatt.UART_RX_CHAR_UUID, ConnectEvents()[4..]) == Some(CONNECT_COMMANDS)
  {
    ScriptShape(CONNECT_PROLOGUE, Gatt.UART_RX_CHAR_UUID, CONNECT_COMMANDS, []);
    assert ConnectEvents() == CONNECT_PROLOGUE + Commands(Gatt.UART_RX_CHAR_UUID, CONNECT_COMMANDS) + [];
    ParseCommandsInverse(Gatt.UART_RX_CHAR_UUID, CONNECT_COMMANDS);
  }

  /** Every wait of `connect` is the 7 s one or a 1 s command pause: no 3 s wait is ever made. */
  lemma ConnectPacing()
    ensures forall k :: 0 <= k < |ConnectEvents()| && ConnectEvents()[k].Sleep? ==>
      ConnectEvents()[k] == Sleep(7.0) || ConnectEvents()[k] == Sleep(PAUSE)
  {
    UniformPaceAfter(CONNECT_PROLOGUE, Gatt.UART_RX_CHAR_UUID, CONNECT_COMMANDS, PAUSE);
    forall k | 0 <= k < 4
      ensures ConnectEvents()[k] == CONNECT_PROLOGUE[k]
    {
    }
  }

  /**
   * Lines 59-60 subscribe before any write, line 67's raw reset is the
   * first write, and every later write is a terminated command.
   */
  lemma ConnectOrdering()
    ensures SubscriptionsBeforeWrites(ConnectEvents())
    ensures ResetFirst(ConnectEvents(), Gatt.UART_RX_CHAR_UUID)
  {
    var subs := [Subscribe(Gatt.UART_TX_CHAR_UUID), Subscribe(Gatt.DATA_TX_CHAR_UUID)];
    assert ConnectEvents() == ResetScript(subs, [Sleep(7.0)], Gatt.UART_RX_CHAR_UUID, CONNECT_COMMANDS, []);
    ResetScriptSubscribesFirst(subs, [Sleep(7.0)], Gatt.UART_RX_CHAR_UUID, CONNECT_COMMANDS, []);
    ResetScriptResetsFirst(subs, [Sleep(7.0)], Gatt.UART_RX_CHAR_UUID, CONNECT_COMMANDS, []);
  }

  /**
   * What running `connect` does: it ends in TypeError at line 72, after the
   * setup and the four well-formed commands, so the 3 s wait of line 76
   * never happens. Both subscriptions come before any write, the raw reset
   * is the first write, and only terminated commands follow it.
   */
  function Connect(): (r: Outcome)
    ensures r == Outcome(ConnectEvents(), Some(TypeError))
    ensures SubscriptionsBeforeWrites(r.trace)
    ensures ResetFirst(r.trace, Gatt.UART_RX_CHAR_UUID)
  {
    ExecSetup();
    ExecTail();
    ExecScript(CONNECT_SETUP, CONNECT_PROLOGUE, Gatt.UART_RX_CHAR_UUID, CONNECT_COMMANDS, CONNECT_TAIL);
    ConnectOrdering();
    Exec(ConnectCalls())
  }
}
