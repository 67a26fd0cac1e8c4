/** The GATT UUIDs of the Monocle's REPL (Nordic UART) service and raw data service. */
module Gatt {

  const UART_SERVICE_UUID: string := "6e400001-b5a3-f393-e0a9-e50e24dcca9e"
  const UART_RX_CHAR_UUID: string := "6e400002-b5a3-f393-e0a9-e50e24dcca9e"
  const UART_TX_CHAR_UUID: string := "6e400003-b5a3-f393-e0a9-e50e24dcca9e"

  const DATA_SERVICE_UUID: string := "e5700001-7bac-429a-b4ce-57ff900f479d"
  const DATA_RX_CHAR_UUID: string := "e5700002-7bac-429a-b4ce-57ff900f479d"
  const DATA_TX_CHAR_UUID: string := "e5700003-7bac-429a-b4ce-57ff900f479d"
}

/**
 * What a host script does to the link, as a trace: notification
 * subscriptions, timed waits and characteristic writes, in order. Commands
 * for the device's MicroPython raw REPL are UTF-8 text terminated by 0x04
 * (ctrl-D); the raw reset 0x03 0x01 (ctrl-C, ctrl-A) interrupts whatever runs
 * and enters raw mode.
 */
module Trace {
  import opened Results
  import opened Bytes
  import Utf8

  /** One observable step; characteristics are named by UUID, delays in seconds. */
  datatype Event =
    | Subscribe(characteristic: string)
    | Sleep(seconds: real)
    | Write(characteristic: string, data: seq<byte>)

  /** Ctrl-D: ends a command in raw mode, in place of a newline. */
  const EOT: byte := 0x04

  /** Ctrl-C then ctrl-A: interrupt and enter the raw REPL. */
  const RESET: seq<byte> := [0x03, 0x01]

  /** A write that carries a complete raw-mode command. */
  predicate Terminated(data: seq<byte>) {
    |data| > 0 && data[|data| - 1] == EOT
  }

  /**
   * The bytes of `f"{cmd}\x04".encode()`: without the final terminator a
   * strict UTF-8 decoder reads back exactly `cmd`; the terminator occurs
   * earlier only if `cmd` itself contains U+0004.
   */
  function Frame(cmd: string): (r: seq<byte>)
    ensures Terminated(r)
    ensures Utf8.Decode(r[..|r| - 1]) == Some(cmd)
    ensures (EOT in r[..|r| - 1]) <==> ('\U{4}' in cmd)
  {
    Utf8.EncodeAppend(cmd, "\U{4}");
    Utf8.DecodeEncode(cmd);
    Utf8.AsciiByteIn(cmd, '\U{4}');
    Utf8.EncodeSingle('\U{4}');
    var r := Utf8.Encode(cmd + "\U{4}");
    assert r[..|r| - 1] == Utf8.Encode(cmd);
    r
  }

  /** The frame of a command assembled from three parts is the parts' encodings, then the terminator. */
  lemma FrameOfParts(a: string, b: string, c: string)
    ensures Frame(a + b + c) == Utf8.Encode(a) + Utf8.Encode(b) + Utf8.Encode(c) + [EOT]
  {
    Utf8.EncodeAppend(a + b + c, "\U{4}");
    Utf8.EncodeSingle('\U{4}');
    Utf8.EncodeAppend(a + b, c);
    Utf8.EncodeAppend(a, b);
  }

  /**
   * Splicing text between two fixed parts free of U+0004 escapes nothing:
   * the frame ends early exactly when the spliced text carries U+0004.
   */
  lemma FrameOfPartsUnescaped(a: string, b: string, c: string)
    requires '\U{4}' !in a && '\U{4}' !in c
    ensures var d := Frame(a + b + c); (EOT in d[..|d| - 1]) <==> ('\U{4}' in b)
  {
    var cmd := a + b + c;
    if '\U{4}' in b {
      var k :| 0 <= k < |b| && b[k] == '\U{4}';
      assert cmd[|a| + k] == '\U{4}';
    }
  }

  /** The reset is not itself a terminated command. */
  lemma ResetIsRaw()
    ensures !Terminated(RESET)
    ensures EOT !in RESET
  {
  }

  /** A command with the pause that follows it. */
  datatype Command = Command(text: string, delay: real)

  /** The events of one paced command: its framed write, then its pause. */
  function CommandEvents(channel: string, c: Command): seq<Event>
  {
    [Write(channel, Frame(c.text)), Sleep(c.delay)]
  }

  /** A sequence of paced commands on one channel. */
  function Commands(channel: string, cs: seq<Command>): (t: seq<Event>)
    ensures |t| == 2 * |cs|
  {
    if |cs| == 0 then [] else CommandEvents(channel, cs[0]) + Commands(channel, cs[1..])
  }

  /** The events of a non-empty command list start with those of its first command. */
  lemma CommandsCons(channel: string, cs: seq<Command>)
    requires |cs| > 0
    ensures Commands(channel, cs) == CommandEvents(channel, cs[0]) + Commands(channel, cs[1..])
  {
  }

  /** The events of consecutive command lists are the lists' events laid end to end. */
  lemma {:induction false} CommandsAppend(channel: string, a: seq<Command>, b: seq<Command>)
    ensures Commands(channel, a + b) == Commands(channel, a) + Commands(channel, b)
  {
    if |a| == 0 {
      assert a + b == b;
    } else {
      assert (a + b)[0] == a[0];
      assert (a + b)[1..] == a[1..] + b;
      CommandsAppend(channel, a[1..], b);
    }
  }

  /**
   * Reads a trace back as paced commands on `channel`: each write must be
   * terminated, decode as UTF-8 and be followed by a pause.
   */
  function ParseCommands(channel: string, t: seq<Event>): Option<seq<Command>>
    decreases |t|
  {
    if |t| == 0 then Some([])
    else if |t| < 2 || !t[0].Write? || !t[1].Sleep? then None
    else if t[0].characteristic != channel || !Terminated(t[0].data) then None
    else
      match Utf8.Decode(t[0].data[..|t[0].data| - 1])
      case None => None
      case Some(text) =>
        match ParseCommands(channel, t[2..])
        case None => None
        case Some(rest) => Some([Command(text, t[1].seconds)] + rest)
  }

  /** The events of one command in front of a parsable trace parse as that command in front. */
  lemma ParseCommandsPrefix(channel: string, c: Command, rest: seq<Event>, more: seq<Command>)
    requires ParseCommands(channel, rest) == Some(more)
    ensures ParseCommands(channel, CommandEvents(channel, c) + rest) == Some([c] + more)
  {
    var f := Frame(c.text);
    var t := CommandEvents(channel, c) + rest;
    assert t[0] == Write(channel, f) && t[1] == Sleep(c.delay);
    assert t[2..] == rest;
    assert Terminated(t[0].data);
    assert Utf8.Decode(t[0].data[..|t[0].data| - 1]) == Some(c.text);
    assert Command(c.text, t[1].seconds) == c;
  }

  /** The events of a single command read back as that command. */
  lemma ParseCommandEvents(channel: string, c: Command)
    ensures ParseCommands(channel, CommandEvents(channel, c)) == Some([c])
  {
    ParseCommandsPrefix(channel, c, [], []);
    assert CommandEvents(channel, c) + [] == CommandEvents(channel, c);
    assert [c] + [] == [c];
  }

  /** Parsing the events of a command list gives the list back. */
  lemma {:induction false} ParseCommandsInverse(channel: string, cs: seq<Command>)
    ensures ParseCommands(channel, Commands(channel, cs)) == Some(cs)
  {
    if |cs| != 0 {
      CommandsCons(channel, cs);
      ParseCommandsInverse(channel, cs[1..]);
      ParseCommandsPrefix(channel, cs[0], Commands(channel, cs[1..]), cs[1..]);
      assert [cs[0]] + cs[1..] == cs;
    }
  }

  /** Command `i` occupies positions 2i (its write) and 2i+1 (its pause). */
  lemma CommandsShape(channel: string, cs: seq<Command>)
    ensures |Commands(channel, cs)| == 2 * |cs|
    ensures forall i :: 0 <= i < |cs| ==>
      Commands(channel, cs)[2 * i] == Write(channel, Frame(cs[i].text))
      && Commands(channel, cs)[2 * i + 1] == Sleep(cs[i].delay)
  {
    forall i | 0 <= i < |cs|
      ensures Commands(channel, cs)[2 * i] == Write(channel, Frame(cs[i].text))
      ensures Commands(channel, cs)[2 * i + 1] == Sleep(cs[i].delay)
    {
      CommandAt(channel, cs, i);
    }
  }

  /** After a single leading event, command `i` is written at position 2i + 1. */
  lemma CommandAfter(first: Event, channel: string, cs: seq<Command>, i: nat)
    requires i < |cs|
    ensures ([first] + Commands(channel, cs))[2 * i + 1] == Write(channel, Frame(cs[i].text))
  {
    CommandAt(channel, cs, i);
  }

  /** Command `i` of a list is laid out after the 2i events of the commands before it. */
  lemma CommandAt(channel: string, cs: seq<Command>, i: nat)
    requires i < |cs|
    ensures Commands(channel, cs)[2 * i] == Write(channel, Frame(cs[i].text))
    ensures Commands(channel, cs)[2 * i + 1] == Sleep(cs[i].delay)
  {
    var before, after := cs[..i], cs[i + 1..];
    assert cs == before + [cs[i]] + after;
    CommandsAppend(channel, before + [cs[i]], after);
    CommandsAppend(channel, before, [cs[i]]);
    var e := CommandEvents(channel, cs[i]);
    assert Commands(channel, [cs[i]]) == e;
    var t := Commands(channel, before) + e + Commands(channel, after);
    assert Commands(channel, cs) == t;
    assert t[2 * i] == e[0] && t[2 * i + 1] == e[1];
  }

  /** The write events of a trace, in order. */
  function Writes(t: seq<Event>): (w: seq<Event>)
    ensures |w| <= |t|
    ensures forall i :: 0 <= i < |w| ==> w[i].Write?
  {
    if |t| == 0 then []
    else if t[0].Write? then [t[0]] + Writes(t[1..])
    else Writes(t[1..])
  }

  lemma {:induction false} WritesAppend(a: seq<Event>, b: seq<Event>)
    ensures Writes(a + b) == Writes(a) + Writes(b)
  {
    if |a| != 0 {
      assert (a + b)[1..] == a[1..] + b;
      WritesAppend(a[1..], b);
    } else {
      assert a + b == b;
    }
  }

  /** The writes of a non-empty command list: its first frame, then the rest's writes. */
  lemma WritesCons(channel: string, cs: seq<Command>)
    requires |cs| > 0
    ensures Writes(Commands(channel, cs)) == [Write(channel, Frame(cs[0].text))] + Writes(Commands(channel, cs[1..]))
  {
    var head := CommandEvents(channel, cs[0]);
    WritesAppend(head, Commands(channel, cs[1..]));
    assert Writes(head) == [Write(channel, Frame(cs[0].text))];
  }

  /** The frame writes of a command list, one per command. */
  function FrameWrites(channel: string, cs: seq<Command>): (w: seq<Event>)
    ensures |w| == |cs|
  {
    if |cs| == 0 then [] else [Write(channel, Frame(cs[0].text))] + FrameWrites(channel, cs[1..])
  }

  /** Write `i` of `FrameWrites` is the frame of command `i`. */
  lemma {:induction false} FrameWritesAt(channel: string, cs: seq<Command>, i: nat)
    requires i < |cs|
    ensures FrameWrites(channel, cs)[i] == Write(channel, Frame(cs[i].text))
  {
    var tail := FrameWrites(channel, cs[1..]);
    assert FrameWrites(channel, cs) == [Write(channel, Frame(cs[0].text))] + tail;
    if i > 0 {
      FrameWritesAt(channel, cs[1..], i - 1);
      assert cs[1..][i - 1] == cs[i];
      assert FrameWrites(channel, cs)[i] == tail[i - 1];
    }
  }

  /** The writes of a command list are its frames, one per command, in order. */
  lemma {:induction false} WritesOfCommands(channel: string, cs: seq<Command>)
    ensures Writes(Commands(channel, cs)) == FrameWrites(channel, cs)
  {
    if |cs| != 0 {
      WritesCons(channel, cs);
      WritesOfCommands(channel, cs[1..]);
    }
  }

  /** No subscription is made after the first write. */
  predicate SubscriptionsBeforeWrites(t: seq<Event>) {
    forall i, j :: 0 <= i < j < |t| && t[i].Write? ==> !t[j].Subscribe?
  }

  /** A trace without subscriptions. */
  predicate NeverSubscribes(t: seq<Event>) {
    forall k :: 0 <= k < |t| ==> !t[k].Subscribe?
  }

  /** Traces without subscriptions stay so when laid end to end. */
  lemma NeverSubscribesAppend(a: seq<Event>, b: seq<Event>)
    requires NeverSubscribes(a) && NeverSubscribes(b)
    ensures NeverSubscribes(a + b)
  {
    forall k | |a| <= k < |a + b|
      ensures !(a + b)[k].Subscribe?
    {
      assert (a + b)[k] == b[k - |a|];
    }
  }

  /** A paced command list never subscribes. */
  lemma {:induction false} CommandsNeverSubscribe(channel: string, cs: seq<Command>)
    ensures NeverSubscribes(Commands(channel, cs))
  {
    if |cs| != 0 {
      CommandsNeverSubscribe(channel, cs[1..]);
      NeverSubscribesAppend(CommandEvents(channel, cs[0]), Commands(channel, cs[1..]));
    }
  }

  /** Every wait of `t` lasts `d`. */
  predicate PacedBy(t: seq<Event>, d: real) {
    forall k :: 0 <= k < |t| && t[k].Sleep? ==> t[k] == Sleep(d)
  }

  /** Traces whose waits all last `d` stay so when laid end to end. */
  lemma PacedByAppend(a: seq<Event>, b: seq<Event>, d: real)
    requires PacedBy(a, d) && PacedBy(b, d)
    ensures PacedBy(a + b, d)
  {
    forall k | |a| <= k < |a + b|
      ensures (a + b)[k] == b[k - |a|]
    {
    }
  }

  /** When every command pauses for `d`, every wait of the command list is `d`. */
  lemma {:induction false} CommandsUniformPace(channel: string, cs: seq<Command>, d: real)
    requires forall i :: 0 <= i < |cs| ==> cs[i].delay == d
    ensures PacedBy(Commands(channel, cs), d)
  {
    if |cs| != 0 {
      CommandsUniformPace(channel, cs[1..], d);
      PacedByAppend(CommandEvents(channel, cs[0]), Commands(channel, cs[1..]), d);
    }
  }

  /** Behind a prologue, a command list whose commands all pause for `d` waits only `d`. */
  lemma UniformPaceAfter(pre: seq<Event>, channel: string, cs: seq<Command>, d: real)
    requires forall i :: 0 <= i < |cs| ==> cs[i].delay == d
    ensures forall k :: |pre| <= k < |pre| + 2 * |cs| && (pre + Commands(channel, cs))[k].Sleep? ==>
      (pre + Commands(channel, cs))[k] == Sleep(d)
  {
    var c := Commands(channel, cs);
    CommandsUniformPace(channel, cs, d);
    forall k | |pre| <= k < |pre| + 2 * |cs|
      ensures (pre + c)[k] == c[k - |pre|]
    {
    }
  }

  /** A trace without write events has no writes. */
  lemma {:induction false} NoWrites(t: seq<Event>)
    requires forall k :: 0 <= k < |t| ==> !t[k].Write?
    ensures Writes(t) == []
  {
    if |t| != 0 {
      NoWrites(t[1..]);
    }
  }

  /**
   * Where everything sits in a script that runs a command list between a
   * fixed prologue and epilogue.
   */
  lemma ScriptShape(pre: seq<Event>, channel: string, cs: seq<Command>, post: seq<Event>)
    ensures |pre + Commands(channel, cs) + post| == |pre| + 2 * |cs| + |post|
    ensures (pre + Commands(channel, cs) + post)[|pre|..|pre| + 2 * |cs|] == Commands(channel, cs)
    ensures forall i :: 0 <= i < |pre| ==> (pre + Commands(channel, cs) + post)[i] == pre[i]
    ensures forall i :: 0 <= i < |cs| ==>
      (pre + Commands(channel, cs) + post)[|pre| + 2 * i] == Write(channel, Frame(cs[i].text))
      && (pre + Commands(channel, cs) + post)[|pre| + 2 * i + 1] == Sleep(cs[i].delay)
    ensures forall i :: 0 <= i < |post| ==> (pre + Commands(channel, cs) + post)[|pre| + 2 * |cs| + i] == post[i]
  {
    var c := Commands(channel, cs);
    var t := pre + c + post;
    CommandsShape(channel, cs);
    assert t[|pre|..|pre| + 2 * |cs|] == c;
    forall i | 0 <= i < |cs|
      ensures t[|pre| + 2 * i] == Write(channel, Frame(cs[i].text)) && t[|pre| + 2 * i + 1] == Sleep(cs[i].delay)
    {
      assert t[|pre| + 2 * i] == c[2 * i];
      assert t[|pre| + 2 * i + 1] == c[2 * i + 1];
    }
  }

  /** A script starts with its prologue and ends with its epilogue. */
  lemma ScriptEnds(pre: seq<Event>, channel: string, cs: seq<Command>, post: seq<Event>)
    ensures (pre + Commands(channel, cs) + post)[..|pre|] == pre
    ensures (pre + Commands(channel, cs) + post)[|pre| + 2 * |cs|..] == post
  {
  }

  /** Subscriptions followed by a subscription-free remainder subscribe before any write. */
  lemma SubscribeThenRest(subs: seq<Event>, rest: seq<Event>)
    requires forall k :: 0 <= k < |subs| ==> subs[k].Subscribe?
    requires NeverSubscribes(rest)
    ensures SubscriptionsBeforeWrites(subs + rest)
  {
    var t := subs + rest;
    forall i, j | 0 <= i < j < |t| && t[i].Write?
      ensures !t[j].Subscribe?
    {
      assert t[j] == rest[j - |subs|];
    }
  }

  /**
   * The raw reset on `channel` is the first write, and every later write
   * is a terminated command.
   */
  predicate ResetFirst(t: seq<Event>, channel: string) {
    var w := Writes(t);
    && |w| > 0
    && w[0] == Write(channel, RESET)
    && forall i :: 1 <= i < |w| ==> Terminated(w[i].data)
  }

  /** Writes inside a write-free frame are exactly the writes of the middle. */
  lemma WritesBetween(pre: seq<Event>, mid: seq<Event>, post: seq<Event>)
    requires Writes(pre) == [] && Writes(post) == []
    ensures Writes(pre + mid + post) == Writes(mid)
  {
    WritesAppend(pre, mid);
    WritesAppend(pre + mid, post);
  }

  /** Every write of a command list carries a complete command. */
  lemma CommandWritesTerminated(channel: string, cs: seq<Command>)
    ensures forall i :: 0 <= i < |Writes(Commands(channel, cs))| ==> Terminated(Writes(Commands(channel, cs))[i].data)
  {
    WritesOfCommands(channel, cs);
    var w := FrameWrites(channel, cs);
    forall i | 0 <= i < |w|
      ensures Terminated(w[i].data)
    {
      FrameWritesAt(channel, cs, i);
    }
  }

  /**
   * A reset followed by paced commands has the reset as its first write
   * and only terminated commands after it.
   */
  lemma ResetThenCommands(pre: seq<Event>, channel: string, cs: seq<Command>, post: seq<Event>)
    requires Writes(pre) == [] && Writes(post) == []
    ensures ResetFirst(pre + [Write(channel, RESET)] + Commands(channel, cs) + post, channel)
  {
    var r := [Write(channel, RESET)];
    var c := Commands(channel, cs);
    assert pre + r + c + post == pre + (r + c) + post;
    WritesBetween(pre, r + c, post);
    ResetBeforeCommands(channel, cs);
  }

  /** The raw reset directly followed by paced commands is the first write, and only terminated commands follow. */
  lemma ResetBeforeCommands(channel: string, cs: seq<Command>)
    ensures ResetFirst([Write(channel, RESET)] + Commands(channel, cs), channel)
  {
    var r := [Write(channel, RESET)];
    var c := Commands(channel, cs);
    WritesAppend(r, c);
    assert Writes(r) == r;
    assert Writes(r + c) == r + Writes(c);
    CommandWritesTerminated(channel, cs);
    TerminatedBehind(Write(channel, RESET), Writes(c));
  }

  /** Writes that all carry complete commands still do so behind one more event. */
  lemma TerminatedBehind(first: Event, w: seq<Event>)
    requires forall i :: 0 <= i < |w| ==> w[i].Write? && Terminated(w[i].data)
    ensures forall i :: 1 <= i < |[first] + w| ==> ([first] + w)[i].Write? && Terminated(([first] + w)[i].data)
  {
    forall i | 1 <= i < |[first] + w|
      ensures ([first] + w)[i] == w[i - 1]
    {
    }
  }

  /** A host script of the usual shape: subscriptions, waits, the raw reset, paced commands, waits. */
  function ResetScript(subs: seq<Event>, waits: seq<Event>, channel: string, cs: seq<Command>, post: seq<Event>): seq<Event>
  {
    subs + waits + [Write(channel, RESET)] + Commands(channel, cs) + post
  }

  /** Only the subscriptions of a script of the usual shape subscribe. */
  lemma ResetScriptSubscribesFirst(subs: seq<Event>, waits: seq<Event>, channel: string, cs: seq<Command>, post: seq<Event>)
    requires forall k :: 0 <= k < |subs| ==> subs[k].Subscribe?
    requires forall k :: 0 <= k < |waits| ==> waits[k].Sleep?
    requires forall k :: 0 <= k < |post| ==> post[k].Sleep?
    ensures SubscriptionsBeforeWrites(ResetScript(subs, waits, channel, cs, post))
  {
    var c := Commands(channel, cs);
    var rest := waits + [Write(channel, RESET)] + c + post;
    assert ResetScript(subs, waits, channel, cs, post) == subs + rest;
    CommandsNeverSubscribe(channel, cs);
    NeverSubscribesAppend(waits, [Write(channel, RESET)]);
    NeverSubscribesAppend(waits + [Write(channel, RESET)], c);
    NeverSubscribesAppend(waits + [Write(channel, RESET)] + c, post);
    SubscribeThenRest(subs, rest);
  }

  /** In a script of the usual shape the reset is the first write and only terminated commands follow it. */
  lemma ResetScriptResetsFirst(subs: seq<Event>, waits: seq<Event>, channel: string, cs: seq<Command>, post: seq<Event>)
    requires forall k :: 0 <= k < |subs| ==> subs[k].Subscribe?
    requires forall k :: 0 <= k < |waits| ==> waits[k].Sleep?
    requires forall k :: 0 <= k < |post| ==> post[k].Sleep?
    ensures ResetFirst(ResetScript(subs, waits, channel, cs, post), channel)
  {
    var pre := subs + waits;
    forall k | 0 <= k < |pre|
      ensures !pre[k].Write?
    {
      if k >= |subs| {
        assert pre[k] == waits[k - |subs|];
      }
    }
    NoWrites(pre);
    NoWrites(post);
    ResetThenCommands(pre, channel, cs, post);
  }
}
