/** The byte streams of the control interface (ipc.c): request lines out of
    arbitrary chunks, and messages out through a bounded queue and partial sends. */
module Ipc {
  import opened CStrings
  import opened JsonReader
  import opened Options

  const MAX_LINE: nat := 1024
  const MAX_OUTPUT: nat := 65536

  // ----- Requests ------------------------------------------------------------------------

  /** Whether the client is kept after a request, given the requests before it. */
  type Keeper = (seq<string>, string) -> bool

  /** The bytes of an unfinished line, the requests so far, and whether the client
      is still connected. */
  datatype Framing = Framing(pending: string, requests: seq<string>, alive: bool)

  function Feed(s: Framing, c: char, keep: Keeper): Framing {
    if !s.alive then s
    else if c == '\n' then
      var request := CString(s.pending);
      Framing("", s.requests + [request], keep(s.requests, request))
    else if |s.pending| >= MAX_LINE then s.(alive := false)
    else s.(pending := s.pending + [c])
  }

  function FeedAll(s: Framing, bytes: string, keep: Keeper): Framing
    decreases |bytes|
  {
    if bytes == "" then s else FeedAll(Feed(s, bytes[0], keep), bytes[1..], keep)
  }

  lemma {:induction false} FeedAllConcat(s: Framing, a: string, b: string, keep: Keeper)
    ensures FeedAll(s, a + b, keep) == FeedAll(FeedAll(s, a, keep), b, keep)
    decreases |a|
  {
    if a == "" {
      assert a + b == b;
    } else {
      assert (a + b)[1..] == a[1..] + b;
      FeedAllConcat(Feed(s, a[0], keep), a[1..], b, keep);
    }
  }

  /** A NUL ends what a C function sees, wherever the buffer goes on. */
  lemma {:induction false} CStringStops(a: string, b: string)
    ensures CString(a + ['\0'] + b) == CString(a)
  {
    var s := a + ['\0'] + b;
    if a == "" {
      assert s[0] == '\0';
    } else {
      assert s[0] == a[0] && s[1..] == a[1..] + ['\0'] + b;
      CStringStops(a[1..], b);
    }
  }

  class Reader {
    const input: array<char>
    const keep: Keeper
    var inputLength: nat
    var requests: seq<string>
    var alive: bool

    ghost predicate Valid()
      reads this
    {
      input.Length == MAX_LINE + 1 && inputLength <= MAX_LINE
    }

    ghost function State(): Framing
      requires Valid()
      reads this, input
    {
      Framing(input[..inputLength], requests, alive)
    }

    constructor (keep: Keeper)
      ensures Valid() && State() == Framing("", [], true) && this.keep == keep && fresh(input)
    {
      input := new char[MAX_LINE + 1];
      this.keep, inputLength, requests, alive := keep, 0, [], true;
    }

    /** The byte loop of leme_ipc_handle_client over one received chunk. */
    method Receive(chunk: string)
      requires Valid() && alive
      modifies this, input
      ensures Valid()
      ensures State() == FeedAll(old(State()), chunk, keep)
    {
      var index := 0;
      assert chunk[0..] == chunk;
      while index < |chunk|
        invariant index <= |chunk| && Valid() && alive
        invariant FeedAll(State(), chunk[index..], keep) == FeedAll(old(State()), chunk, keep)
      {
        var character := chunk[index];
        ghost var before := State();
        assert chunk[index..][0] == character && chunk[index..][1..] == chunk[index + 1..];
        if character == '\n' {
          Dispatch();
        } else if inputLength >= MAX_LINE {
          alive := false;
        } else {
          input[inputLength] := character;
          inputLength := inputLength + 1;
          assert State().pending == before.pending + [character];
        }
        assert State() == Feed(before, character, keep);
        if !alive {
          DeadStays(State(), chunk[index + 1..], keep);
          return;
        }
        index := index + 1;
      }
      assert chunk[index..] == "";
    }

    /** A complete line: it is terminated in place and handed over as a C string. */
    method Dispatch()
      requires Valid() && alive
      modifies this, input
      ensures Valid() && State() == Feed(old(State()), '\n', keep)
    {
      ghost var line := input[..inputLength];
      input[inputLength] := '\0';
      var request := CString(input[..]);
      assert input[..] == line + ['\0'] + input[inputLength + 1..];
      CStringStops(line, input[inputLength + 1..]);
      inputLength := 0;
      alive := keep(requests, request);
      requests := requests + [request];
    }
  }

  lemma {:induction false} DeadStays(s: Framing, bytes: string, keep: Keeper)
    requires !s.alive
    ensures FeedAll(s, bytes, keep) == s
  {
    if bytes != "" {
      DeadStays(s, bytes[1..], keep);
    }
  }

  function Concat(chunks: seq<string>): string {
    if chunks == [] then "" else chunks[0] + Concat(chunks[1..])
  }

  function FeedChunks(s: Framing, chunks: seq<string>, keep: Keeper): Framing
    decreases |chunks|
  {
    if chunks == [] then s else FeedChunks(FeedAll(s, chunks[0], keep), chunks[1..], keep)
  }

  /** How the bytes are split into chunks makes no difference. */
  lemma {:induction false} SplittingIsInvisible(s: Framing, chunks: seq<string>, keep: Keeper)
    ensures FeedChunks(s, chunks, keep) == FeedAll(s, Concat(chunks), keep)
    decreases |chunks|
  {
    if chunks != [] {
      FeedAllConcat(s, chunks[0], Concat(chunks[1..]), keep);
      SplittingIsInvisible(FeedAll(s, chunks[0], keep), chunks[1..], keep);
    }
  }

  /** Where the first newline is, or the length. */
  function LineLength(bytes: string): (n: nat)
    ensures n <= |bytes| && '\n' !in bytes[..n]
    ensures n < |bytes| ==> bytes[n] == '\n'
  {
    if bytes == "" || bytes[0] == '\n' then 0
    else
      var n := 1 + LineLength(bytes[1..]);
      assert bytes[..n] == [bytes[0]] + bytes[1..][..n - 1];
      n
  }

  /** The same in terms of whole lines: a line of at most MAX_LINE bytes is a request,
      a longer one drops the client, and what follows the last newline is pending. */
  function ByLines(requests: seq<string>, bytes: string, keep: Keeper): Framing
    decreases |bytes|
  {
    var n := LineLength(bytes);
    if n > MAX_LINE then Framing(bytes[..MAX_LINE], requests, false)
    else if n == |bytes| then Framing(bytes, requests, true)
    else
      var request := CString(bytes[..n]);
      if keep(requests, request) then ByLines(requests + [request], bytes[n + 1..], keep)
      else Framing("", requests + [request], false)
  }

  lemma {:induction false} FeedLine(s: Framing, line: string, keep: Keeper)
    requires s.alive && '\n' !in line && |s.pending| <= MAX_LINE
    ensures FeedAll(s, line, keep) == if |s.pending| + |line| <= MAX_LINE then s.(pending := s.pending + line)
      else s.(pending := (s.pending + line)[..MAX_LINE], alive := false)
    decreases |line|
  {
    if line == "" {
      assert s.pending + line == s.pending;
    } else {
      var t := Feed(s, line[0], keep);
      assert line[0] in line;
      assert s.pending + line == (s.pending + [line[0]]) + line[1..];
      if t.alive {
        FeedLine(t, line[1..], keep);
      } else {
        DeadStays(t, line[1..], keep);
        assert (s.pending + line)[..MAX_LINE] == s.pending;
      }
    }
  }

  /** The requests and the fate of the client are those of the lines of the stream. */
  lemma {:induction false} StreamIsByLines(requests: seq<string>, bytes: string, keep: Keeper)
    ensures FeedAll(Framing("", requests, true), bytes, keep) == ByLines(requests, bytes, keep)
    decreases |bytes|
  {
    var s, n := Framing("", requests, true), LineLength(bytes);
    var line := bytes[..n];
    assert bytes == line + bytes[n..];
    FeedAllConcat(s, line, bytes[n..], keep);
    FeedLine(s, line, keep);
    assert "" + line == line;
    if n > MAX_LINE {
      assert line[..MAX_LINE] == bytes[..MAX_LINE];
      DeadStays(FeedAll(s, line, keep), bytes[n..], keep);
    } else if n < |bytes| {
      var t := Feed(FeedAll(s, line, keep), '\n', keep);
      assert bytes[n..][1..] == bytes[n + 1..];
      if t.alive {
        StreamIsByLines(t.requests, bytes[n + 1..], keep);
      } else {
        DeadStays(t, bytes[n + 1..], keep);
      }
    }
  }

  // ----- Messages ---------------------------------------------------------------------------------

  /** What send() can answer. */
  datatype Sent = Bytes(count: nat) | Interrupted | WouldBlock | Broken

  /** A socket that answers as its script says, and blocks when the script is over. */
  class Socket {
    var script: seq<Sent>
    var sent: string

    method Send(text: string) returns (answer: Sent)
      modifies this
      ensures |old(script)| > 0 ==> script == old(script)[1..] && (old(script)[0].Bytes? || answer == old(script)[0])
      ensures |old(script)| > 0 && old(script)[0].Bytes? ==> answer.Bytes?
      ensures old(script) == [] ==> script == [] && answer == WouldBlock
      ensures answer.Bytes? ==> answer.count <= |text| && sent == old(sent) + text[..answer.count]
      ensures !answer.Bytes? ==> sent == old(sent)
    {
      if |script| == 0 {
        return WouldBlock;
      }
      answer := script[0];
      script := script[1..];
      if answer.Bytes? {
        answer := Bytes(if answer.count > |text| then |text| else answer.count);
        sent := sent + text[..answer.count];
      }
    }
  }

  class Sender {
    const socket: Socket
    var output: string
    var capacity: nat

    /** Every byte that was ever accepted for sending, in order. */
    ghost var accepted: string

    ghost predicate Valid()
      reads this, socket
    {
      && accepted == socket.sent + output
      && |output| <= MAX_OUTPUT && |output| <= capacity
    }

    constructor (socket: Socket)
      requires socket.sent == ""
      ensures Valid() && this.socket == socket && accepted == ""
    {
      this.socket, output, capacity, accepted := socket, "", 0, "";
    }

    /** leme_ipc_client_flush: sends all it can. What stays queued is left because the
        socket would block, and only a broken connection makes it fail. */
    method Flush() returns (ok: bool)
      requires Valid()
      modifies this`output, socket
      ensures Valid() && old(socket.sent) <= socket.sent && |output| <= |old(output)|
      ensures forall a :: a in socket.script ==> a in old(socket.script)
      ensures ok && output != "" ==> WouldBlock in old(socket.script) || socket.script == []
      ensures !ok ==> Broken in old(socket.script)
    {
      while output != ""
        invariant Valid() && old(socket.sent) <= socket.sent && |output| <= |old(output)|
        invariant forall a :: a in socket.script ==> a in old(socket.script)
        decreases |socket.script|, |output|
      {
        var answer := socket.Send(output);
        match answer {
          case Interrupted =>
          case WouldBlock => return true;
          case Broken => return false;
          case Bytes(count) =>
            assert output[..count] + output[count..] == output;
            output := output[count..];
        }
      }
      ok := true;
    }

    /** leme_ipc_client_queue: all of the text or nothing of it is accepted. */
    method Queue(text: string) returns (ok: bool)
      requires Valid()
      modifies this, socket
      ensures Valid()
      ensures var fits := |text| <= MAX_OUTPUT - |old(output)|;
        accepted == (if fits then old(accepted) + text else old(accepted)) && (ok ==> fits) &&
        (fits && Broken !in old(socket.script) ==> ok)
      ensures |output| <= |old(output)| + |text| && forall a :: a in socket.script ==> a in old(socket.script)
    {
      if |text| > MAX_OUTPUT - |output| {
        return false;
      }
      var needed := |output| + |text|;
      if needed > capacity {
        var grown := if capacity == 0 then 1024 else capacity;
        while grown < needed
          invariant grown > 0
        {
          grown := grown * 2;
        }
        capacity := grown;
      }
      output := output + text;
      accepted := accepted + text;
      ok := Flush();
    }

    /** leme_ipc_client_send: a message that fits with its newline is accepted whole,
        unless the connection breaks. */
    method SendMessage(text: string) returns (ok: bool)
      requires Valid()
      modifies this, socket
      ensures Valid()
      ensures ok ==> accepted == old(accepted) + text + "\n"
      ensures |text| < MAX_OUTPUT - |old(output)| && Broken !in old(socket.script) ==> ok
      ensures accepted == old(accepted) || accepted == old(accepted) + text || accepted == old(accepted) + text + "\n"
    {
      ok := Queue(text);
      if ok {
        ok := Queue("\n");
      }
    }
  }

  // ----- Messages come out as they went in ------------------------------------------------------------

  function Stream(messages: seq<string>): string {
    if messages == [] then "" else messages[0] + "\n" + Stream(messages[1..])
  }

  /** The complete lines of a stream. */
  function Lines(bytes: string): seq<string>
    decreases |bytes|
  {
    var n := LineLength(bytes);
    if n == |bytes| then [] else [bytes[..n]] + Lines(bytes[n + 1..])
  }

  lemma {:induction false} LineLengthIs(line: string, rest: string)
    requires '\n' !in line
    ensures LineLength(line + "\n" + rest) == |line|
    decreases |line|
  {
    var s := line + "\n" + rest;
    if line != "" {
      assert line[0] in line;
      assert s[1..] == line[1..] + "\n" + rest;
      LineLengthIs(line[1..], rest);
    }
  }

  lemma FirstLine(line: string, rest: string)
    requires '\n' !in line
    ensures Lines(line + "\n" + rest) == [line] + Lines(rest)
  {
    var s := line + "\n" + rest;
    LineLengthIs(line, rest);
    assert s[..|line|] == line && s[|line| + 1..] == rest;
  }

  /** Messages without a newline are exactly the lines of the stream they make. */
  lemma {:induction false} LinesOfStream(messages: seq<string>)
    requires forall k :: 0 <= k < |messages| ==> '\n' !in messages[k]
    ensures Lines(Stream(messages)) == messages
    decreases |messages|
  {
    if messages != [] {
      LinesOfStream(messages[1..]);
      FirstLine(messages[0], Stream(messages[1..]));
      assert [messages[0]] + messages[1..] == messages;
    }
  }

  function Printed(values: seq<Value>): (r: seq<string>)
    ensures |r| == |values|
    ensures forall k :: 0 <= k < |values| ==> r[k] == Print(values[k])
  {
    seq(|values|, k requires 0 <= k < |values| => Print(values[k]))
  }

  /** A client that splits the stream at newlines and reads each line gets back the
      values that were sent. */
  lemma MessagesAreFramed(values: seq<Value>)
    ensures var lines := Lines(Stream(Printed(values)));
      |lines| == |values| && forall k :: 0 <= k < |values| ==> ReadText(lines[k]) == Some(values[k])
  {
    forall k | 0 <= k < |values|
      ensures '\n' !in Printed(values)[k] && ReadText(Printed(values)[k]) == Some(values[k])
    {
      PrintNoControl(values[k]);
      WritingIsInvertible(values[k]);
    }
    LinesOfStream(Printed(values));
  }
}
