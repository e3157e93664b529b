/** The receiving half of HttpBase: the pump from the network through a 32 KB buffer into the parser. */
module HttpReceiving {
  import opened Ascii
  import opened HttpGrammar
  import opened HttpParsing

  const BUFFER_SIZE: nat := 32 * 1024
  const MAX_READ_COUNT: nat := 20

  datatype StreamResult = Success | Blocked | EndOfStream | Failed(code: int)

  /** Why DoReceiveLoop asks for complete(). */
  datatype Cause = ByParser | ByDocument | ByClose(code: int) | ByFullBuffer

  /** Why it returns without. */
  datatype Pause = NetworkBlocks | DocumentStalls | EnoughRounds

  /** HandleStreamClose: a clean close ends a document of unknown length, and no other message. */
  function EndError(code: int, state: State, dataSize: Size): HttpError {
    if code == 0 && state == Data && dataSize == SIZE_UNKNOWN then NoError else CloseError(code)
  }

  /** In a document whose length is not known. */
  predicate InDocument(c: Config) {
    c.status.Running? && c.parser.state == Data && c.parser.dataSize == 0xFFFF_FFFF
  }

  class HttpReceiver {
    const parser: HttpParser
    const buffer: array<char>
    var len: nat

    /** mode_ is HM_RECV. */
    var receiving: bool

    /** The stream has come to its end, which is final. */
    var closed: bool

    /** What the stream has but has not delivered yet. */
    var incoming: string

    /** How the stream has ended in the last read of a loop: 0 at its end, or the code with which it has failed. */
    ghost var ended: Option<int>

    /** How often the stream has been asked, and whether the last read in a loop has blocked. */
    ghost var asked: nat
    ghost var stalled: bool

    /** Every byte that the stream has delivered since recv(). */
    ghost var received: string

    constructor (parser: HttpParser)
      ensures this.parser == parser && !receiving && !closed && buffer.Length == BUFFER_SIZE && fresh(buffer)
    {
      this.parser := parser;
      buffer := new char[BUFFER_SIZE];
      len, receiving, closed, incoming, received := 0, false, false, "", "";
      ended, asked, stalled := None, 0, false;
    }

    /** recv(), up to the first read. */
    method Recv()
      requires !receiving && buffer.Length == BUFFER_SIZE
      modifies this, parser
      ensures receiving && Valid() && received == "" && len == 0 && parser.View() == Start
      ensures closed == old(closed) && incoming == old(incoming) && parser.accepting == old(parser.accepting)
    {
      hide Parse, Settle;
      receiving, len, received := true, 0, "";
      parser.Reset();
      ParseNothing(parser.callbacks, Start);
      SettleKeeps(Start);
      assert buffer[..0] == "";
    }

    /** The delivered bytes that the parser has taken. */
    ghost function Consumed(): string
      requires len <= |received|
      reads this
    {
      received[..|received| - len]
    }

    /** The delivered bytes are the bytes that the parser has taken and then those in the buffer. */
    ghost predicate Conserved()
      reads this, buffer, parser
    {
      && buffer.Length == BUFFER_SIZE && len <= BUFFER_SIZE && len <= |received|
      && received == Consumed() + buffer[..len]
      && parser.used == |Consumed()| && parser.state != Complete
    }

    /**
     And the parser is where the byte-wise automaton is behind them, however the stream was cut. Behind an overread,
     it has passed on what the automaton has.
     */
    ghost predicate Valid()
      reads this, buffer, parser
    {
      && Conserved()
      && var c := Parse(parser.callbacks, Start, Consumed());
         if c.status.Overread? then c.log <= parser.log else c == Settle(parser.View())
    }

    ghost predicate Overreads()
      requires len <= |received|
      reads this, parser
    {
      Parse(parser.callbacks, Start, Consumed()).status.Overread?
    }

    /** The parser waits for more: the bytes in the buffer are its unfinished line. */
    ghost predicate Waiting()
      requires len <= buffer.Length && len <= |received|
      reads this, buffer, parser
    {
      Overreads() || Parse(parser.callbacks, Start, received) == parser.View().(line := buffer[..len])
    }

    /** The document does not take what there is for it, or the last line has made its callback block. */
    ghost predicate Stalls()
      requires len <= |received|
      reads this, parser
    {
      || Overreads()
      || (!parser.accepting && parser.state == Data && parser.dataSize != 0 && len > 0)
      || LineBlocks(parser.callbacks, Start, Consumed())
    }

    ghost predicate Verdict(error: HttpError, cause: Cause)
      requires len <= buffer.Length && len <= |received|
      reads this, buffer, parser
    {
      match cause
      case ByParser =>
        Overreads() || Parse(parser.callbacks, Start, received) == parser.View().(status := Stopped(error))
      case ByDocument => error == StreamFailed && !parser.accepting && Stalls()
      case ByClose(code) => error == EndError(code, parser.state, parser.dataSize) && Valid()
      case ByFullBuffer =>
        && error == Overflow && len == 32768
        && (Overreads() || (InLine(parser.View().parser) && '\n' !in buffer[..len]))
    }

    /** More that the stream is going to deliver. */
    method Expect(data: string)
      modifies this`incoming
      ensures incoming == old(incoming) + data && (old(Valid()) ==> Valid())
    {
      incoming := incoming + data;
    }

    /** Bytes from the network, behind those in the buffer. */
    method Arrive(data: string)
      requires Valid() && len + |data| <= BUFFER_SIZE
      modifies this`received, this`len, buffer
      ensures Valid() && received == old(received) + data && Consumed() == old(Consumed())
      ensures len == old(len) + |data| && buffer[..len] == old(buffer[..len]) + data
    {
      hide Parse;
      ghost var before := received;
      ghost var kept := buffer[..len];
      forall i | 0 <= i < |data| {
        buffer[len + i] := data[i];
      }
      received := received + data;
      len := len + |data|;
      assert buffer[..len] == kept + data;
      assert received == before[..|before| - |kept|] + kept + data;
      assert Consumed() == before[..|before| - |kept|];
    }

    /** At least one byte of what the stream has. */
    method TakeSome() returns (read: nat)
      requires Valid() && len < BUFFER_SIZE && incoming != ""
      modifies this`received, this`incoming, this`len, buffer
      ensures Valid() && old(received) <= received && received == old(received) + buffer[old(len)..len]
      ensures received + incoming == old(received + incoming) && Consumed() == old(Consumed())
      ensures len == old(len) + read && read > 0
    {
      hide Parse, Settle;
      read :| 1 <= read <= BUFFER_SIZE - len && read <= |incoming|;
      var data := incoming[..read];
      ghost var before := received;
      assert before + incoming == before + data + incoming[read..];
      Arrive(data);
      assert buffer[len - read..len] == data;
      incoming := incoming[read..];
    }

    /**
     Read on the network stream: of what the stream has, any amount from one byte to the room asked for, or nothing, or,
     when it has been delivered, the end for good.
     */
    method Read() returns (result: StreamResult, read: nat)
      requires Valid() && len < BUFFER_SIZE
      modifies this`received, this`incoming, this`len, this`closed, this`ended, this`asked, this`stalled, buffer
      ensures Valid() && old(received) <= received && received == old(received) + buffer[old(len)..len]
      ensures received + incoming == old(received + incoming)
      ensures result != Success ==> len == old(len) && received == old(received) && buffer[..len] == old(buffer[..len])
      ensures len == old(len) + read && (result == Success <==> read > 0)
      ensures Consumed() == old(Consumed())
      ensures old(closed) ==> result == EndOfStream
      ensures asked == old(asked) + 1 && stalled == (result == Blocked)
      ensures ended ==
        if result == EndOfStream then Some(0) else if result.Failed? then Some(result.code) else old(ended)
    {
      hide Parse, Settle;
      result := *;
      read, asked := 0, asked + 1;
      assert buffer[len..len] == "" && received + "" == received;
      if closed || (result == EndOfStream && incoming == "") {
        result, closed := EndOfStream, true;
      } else if result == Success && incoming != "" {
        read := TakeSome();
      } else if result == Success || result == EndOfStream {
        result := Blocked;
      }
      ended := if result == EndOfStream then Some(0) else if result.Failed? then Some(result.code) else ended;
      stalled := result == Blocked;
    }

    /** memmove the unprocessed bytes to the front. */
    method DropFront(n: nat)
      requires n <= len <= buffer.Length
      modifies this`len, buffer
      ensures len == old(len) - n && buffer[..len] == old(buffer[n..len])
    {
      len := len - n;
      forall i | 0 <= i < len {
        buffer[i] := buffer[i + n];
      }
    }

    /** Process on the buffer, of which the unprocessed part moves to the front. */
    method ProcessBuffer() returns (reply: Reply, ghost cause: Cause)
      requires Valid()
      modifies this`len, buffer, parser
      ensures Conserved() && parser.accepting == old(parser.accepting) && parser.stalling == old(parser.stalling)
      ensures reply == Block ==> Valid() && Stalls() && !(parser.accepting && NeverBlocks(parser.callbacks))
      ensures reply == Continue ==> Valid() && Waiting()
      ensures reply.Finish? ==> Verdict(reply.error, cause) && (cause == ByParser || (cause == ByDocument && Valid()))
      ensures old(parser.Halted(buffer[..len])) ==>
        reply == Block && len == old(len) && parser.View() == old(parser.View())
    {
      hide Parse, LineStep, Settle, NeverBlocks;
      ghost var cb, consumed, view, bytes := parser.callbacks, Consumed(), parser.View(), buffer[..len];
      ghost var before := Parse(cb, Start, consumed);
      assert received == consumed + bytes;
      var processed;
      reply, processed := parser.Process(buffer[..len]);
      DropFront(processed);
      assert buffer[..len] == bytes[processed..];
      Cut(received, |consumed|, processed);
      assert Consumed() == consumed + bytes[..processed] by {
        assert received[..|consumed|] == consumed && received[|consumed|..] == bytes;
      }
      assert Conserved();
      cause := ByParser;
      if before.status.Overread? {
        Behind(cb, consumed, bytes[..processed]);
      } else {
        Continued(cb, consumed, view, bytes);
        if processed > 0 {
          LineContinued(cb, consumed, view, bytes[..processed]);
        }
        Continued(cb, consumed, view, bytes[..processed]);
        cause := if reply.Finish? && Parse(cb, Start, received) == parser.View().(status := Stopped(reply.error))
          then ByParser else ByDocument;
      }
      if Overreads() {
        cause := ByParser;
      }
    }

    /** The first half of a round: reads if there is room. That may be the end of the loop. */
    method ReadMore(requiresMoreData: bool) returns (ends: bool, done: bool, error: HttpError, ghost cause: Cause)
      requires Valid() && (requiresMoreData ==> Waiting()) && ended == None
      modifies this`len, this`received, this`incoming, this`closed, this`ended, this`asked, this`stalled, buffer
      ensures Valid() && old(received) <= received && received + incoming == old(received + incoming)
      ensures old(asked) <= asked <= old(asked) + 1 && (asked > old(asked) || old(len) == BUFFER_SIZE)
      ensures !ends ==> ended == None && (requiresMoreData ==> |received| > |old(received)|)
      ensures ends && !done ==> Waiting() && ended == None && stalled
      ensures ends && done ==> Verdict(error, cause) && !cause.ByParser? && EndedBy(error, cause)
      ensures old(closed && len < BUFFER_SIZE) ==>
        ends && done && cause == ByClose(0) && len == old(len) && received == old(received)
    {
      hide Parse, LineStep, Settle;
      ends, done, error, cause := true, true, NoError, ByFullBuffer;
      if len < BUFFER_SIZE {
        var result, read := Read();
        match result {
          case Success =>
            ends := false;
          case Blocked =>
            ends, done := requiresMoreData, false;
          case EndOfStream =>
            error, cause := EndError(0, parser.state, parser.dataSize), ByClose(0);
          case Failed(code) =>
            error, cause := EndError(code, parser.state, parser.dataSize), ByClose(code);
        }
      } else if requiresMoreData {
        if !Overreads() {
          WaitingLine(parser.callbacks, received);
        }
        error := Overflow;
      } else {
        ends := false;
      }
    }

    /** Only the end of the stream itself ends the loop by a close, and that always; the error says which it was. */
    ghost predicate EndedBy(error: HttpError, cause: Cause)
      reads this, parser
    {
      && (if ended.Some? then cause == ByClose(ended.value) else !cause.ByClose?)
      && (cause.ByClose? ==>
            if cause.code == 0 && InDocument(parser.View()) then error == NoError else Reports(error, cause.code))
    }

    /**
     Pumps until the stream or the document blocks, the message ends, or MAX_READ_COUNT + 1 rounds have passed.
     A pause because of the stream leaves only an unfinished line, and one because of the rounds comes after at least
     MAX_READ_COUNT new bytes. HE_OVERFLOW is the pump's own verdict only on a full buffer that is one unfinished line.
     */
    method DoReceiveLoop() returns (done: bool, error: HttpError, ghost cause: Cause, ghost pause: Pause)
      requires Valid()
      modifies this`len, this`received, this`incoming, this`closed, this`ended, this`asked, this`stalled, buffer, parser
      ensures Conserved() && old(received) <= received && parser.accepting == old(parser.accepting)
      ensures received + incoming == old(received + incoming) && asked <= old(asked) + 21
      ensures asked > old(asked) || old(len) == 32768
      ensures !done && pause.NetworkBlocks? ==> stalled
      ensures !done ==> Valid() && match pause
        case NetworkBlocks => Waiting()
        case DocumentStalls => Stalls() && !(parser.accepting && NeverBlocks(parser.callbacks))
        case EnoughRounds => |received| >= |old(received)| + 20
      ensures old(closed && len < BUFFER_SIZE) ==>
        && done && cause == ByClose(0) && len == old(len) && received == old(received)
        && parser.View() == old(parser.View())
      ensures done ==> Verdict(error, cause) && (cause == ByParser || Valid())
      ensures if done then EndedBy(error, cause) else ended == None
    {
      hide Parse, LineStep, Settle, LineBlocks, Stalls, Verdict;
      error, cause, pause, ended := NoError, ByParser, NetworkBlocks, None;
      var loopCount := 0;
      var requiresMoreData := false;
      while true
        invariant Valid() && old(received) <= received && parser.accepting == old(parser.accepting)
        invariant received + incoming == old(received + incoming) && old(asked) <= asked <= old(asked) + loopCount
        invariant asked > old(asked) || if loopCount == 0 then len == old(len) else old(len) == BUFFER_SIZE
        invariant loopCount <= MAX_READ_COUNT
        invariant requiresMoreData ==> Waiting()
        invariant ended == None
        invariant old(closed && len < BUFFER_SIZE) ==>
          closed && len == old(len) && received == old(received) && parser.View() == old(parser.View())
        invariant loopCount > 0 ==> requiresMoreData && |received| >= |old(received)| + loopCount - 1
        decreases MAX_READ_COUNT - loopCount
      {
        var ends;
        ends, done, error, cause := ReadMore(requiresMoreData);
        if ends {
          return done, error, cause, NetworkBlocks;
        }
        var reply;
        reply, cause := ProcessBuffer();
        match reply {
          case Continue => requiresMoreData := true;
          case Block => return false, NoError, cause, DocumentStalls;
          case Finish(e) => return true, e, cause, pause;
        }
        loopCount := loopCount + 1;
        if loopCount > MAX_READ_COUNT {
          return false, NoError, cause, EnoughRounds;
        }
      }
    }
  }

  /**
   An end by the close of the stream is a success exactly if the close is clean and the automaton, behind the bytes that
   have been consumed, is in a document of unknown length.
   */
  lemma CloseIsSuccessIff(receiver: HttpReceiver, error: HttpError, code: int)
    requires receiver.Conserved() && receiver.Verdict(error, ByClose(code)) && !receiver.Overreads()
    ensures error == NoError <==>
      code == 0 && InDocument(Parse(receiver.parser.callbacks, Start, receiver.Consumed()))
    ensures error != NoError ==> Reports(error, code)
  {
    hide Parse;
  }

  lemma LineContinued(cb: Callbacks, consumed: string, view: Config, bytes: string)
    requires Parse(cb, Start, consumed) == Settle(view) && bytes != ""
    ensures LineBlocks(cb, view, bytes) ==> LineBlocks(cb, Start, consumed + bytes)
  {
    hide Parse, LineStep;
    var front, all := bytes[..|bytes| - 1], consumed + bytes;
    Continued(cb, consumed, view, front);
    assert all[..|all| - 1] == consumed + front;
  }

  lemma Cut(s: string, i: nat, n: nat)
    requires i + n <= |s|
    ensures s[..i + n] == s[..i] + s[i..][..n] && s[i + n..] == s[i..][n..]
    ensures s == s[..i + n] + s[i..][n..]
  {
  }

  lemma Behind(cb: Callbacks, consumed: string, bytes: string)
    requires Parse(cb, Start, consumed).status.Overread?
    ensures Parse(cb, Start, consumed + bytes) == Parse(cb, Start, consumed)
  {
    ParseConcat(cb, Start, consumed, bytes);
    ParseStopped(cb, Parse(cb, Start, consumed), bytes);
  }

  lemma WaitingLine(cb: Callbacks, s: string)
    ensures Open(Parse(cb, Start, s)) && Parse(cb, Start, s).parser.state != Complete
  {
    ParseOpen(cb, Start, s);
    NeverComplete(cb, Start, s);
  }

  lemma Continued(cb: Callbacks, consumed: string, view: Config, bytes: string)
    requires Parse(cb, Start, consumed) == Settle(view)
    ensures Parse(cb, Start, consumed + bytes) == Parse(cb, view, bytes)
  {
    ParseConcat(cb, Start, consumed, bytes);
    ParseFromSettled(cb, view, bytes);
  }
}
