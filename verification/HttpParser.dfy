/** HttpParser: the incremental parser, fed one buffer at a time. */
module HttpParsing {
  import opened Ascii
  import opened HttpGrammar

  class HttpParser {
    var state: State
    var chunked: bool
    var dataSize: Size

    /** The virtual functions. ProcessData takes data while `accepting`, and otherwise, if `stalling`, takes none. */
    const callbacks: Callbacks
    var accepting: bool
    var stalling: bool

    /** The callbacks made and the number of bytes processed since reset(). */
    ghost var log: seq<Event>
    ghost var used: nat

    constructor (callbacks: Callbacks)
      ensures View() == Start && this.callbacks == callbacks && accepting
    {
      this.callbacks := callbacks;
      state, chunked, dataSize := Leader, false, SIZE_UNKNOWN;
      accepting, stalling, log, used := true, false, [], 0;
    }

    method Reset()
      modifies this
      ensures View() == Start && accepting == old(accepting) && stalling == old(stalling)
    {
      state, chunked, dataSize := Leader, false, SIZE_UNKNOWN;
      log, used := [], 0;
    }

    /** complete(): whether the end is still to be reported. */
    method Finalize() returns (report: bool)
      modifies this`state
      ensures state == Complete && report == (old(state) != Complete)
    {
      report := state != Complete;
      state := Complete;
    }

    ghost function View(): Config
      reads this
    {
      Config(Parser(state, chunked, dataSize), "", log, used, Running)
    }

    /** ProcessData: the subclass takes part or all of the data, stalls, or fails. */
    method ProcessData(data: string) returns (reply: Reply, read: nat)
      requires data != ""
      modifies this`log
      ensures read <= |data| && (reply.Continue? <==> read > 0)
      ensures log == old(log) + DataBytes(data[..read])
      ensures accepting ==> reply.Continue?
      ensures !accepting && stalling ==> reply.Block?
      ensures reply.Finish? ==> reply.error == StreamFailed
    {
      var willing: bool := *;
      if accepting || (willing && !stalling) {
        read :| 1 <= read <= |data|;
        reply := Continue;
      } else {
        read := 0;
        reply :| reply == Block || (!stalling && reply == Finish(StreamFailed));
      }
      log := log + DataBytes(data[..read]);
    }

    method ProcessHeader(name: string, value: string) returns (reply: Reply)
      modifies this`log
      ensures log == old(log) + [Header(name, value)] && reply == callbacks.header(name, value)
    {
      log := log + [Header(name, value)];
      reply := callbacks.header(name, value);
    }

    /**
     The line is a function of the parser's fields and of the line alone, unless sscanf runs past the line: then
     the number it yields, and with it the outcome, is anything.
     */
    method ProcessLine(line: string) returns (reply: Reply)
      requires InLine(View().parser)
      modifies this`state, this`chunked, this`dataSize, this`log
      ensures match LineStep(callbacks, old(View().parser), line)
        case PastTheLine => true
        case Line(p, events, r) => View().parser == p && log == old(log) + events && reply == r
      ensures state != Complete && old(log) <= log
      ensures NeverBlocks(callbacks) ==> reply != Block
    {
      match state {
        case Leader =>
          state := Headers;
          log := log + [LeaderLine(line)];
          reply := callbacks.leader(line);
        case Headers =>
          if |line| > 0 {
            var colon := FindColon(line);
            if colon == None {
              return Finish(Protocol);
            }
            var name, value := line[..colon.value], SkipSpaces(line[colon.value + 1..]);
            if EqualsNoCase(name, "Content-Length") {
              var number := ParseUnsigned(value, callbacks.overflow);
              if value == "" {
                number := *;
              }
              if number == None {
                return Finish(Protocol);
              }
              dataSize := number.value;
            } else if EqualsNoCase(name, "Transfer-Encoding") {
              if |value| == 7 && EqualsNoCase(value, "chunked") {
                chunked := true;
              } else if |value| == 8 && EqualsNoCase(value, "identity") {
                chunked := false;
              } else {
                return Finish(Protocol);
              }
            }
            reply := ProcessHeader(name, value);
          } else {
            state := if chunked then ChunkSize else Data;
            log := log + [HeadersDone(chunked, dataSize)];
            var (size, answer) := callbacks.headersDone(chunked, dataSize);
            dataSize, reply := size, answer;
          }
        case ChunkSize =>
          if |line| > 0 {
            dataSize := HexPrefixValue(line);
            if ParseHex(line) == None {
              return Finish(Protocol);
            }
            state := if dataSize == 0 then Trailers else Data;
          } else {
            return Finish(Protocol);
          }
          reply := Continue;
        case ChunkTerm =>
          if |line| > 0 {
            return Finish(Protocol);
          }
          state := if chunked then ChunkSize else Data;
          reply := Continue;
        case Trailers =>
          reply := if |line| == 0 then Finish(NoError) else Continue;
      }
    }

    /** One pass of the loop of Process over the whole line `line` at `from`. */
    method EndOfLine(line: string, ghost start: Config, ghost buffer: string, ghost from: nat) returns (reply: Reply)
      requires InLine(View().parser) && from + |line| < |buffer| && Reached(start, buffer, from, View())
      requires line == buffer[from..from + |line|] && '\n' !in line && buffer[from + |line|] == '\n'
      modifies this`state, this`chunked, this`dataSize, this`log, this`used
      ensures state != Complete && used == old(used) + |line| + 1 && old(log) <= log
      ensures Leads(start, buffer, from + |line| + 1,
                    View().(status := if reply.Finish? then Stopped(reply.error) else Running))
      ensures reply == Block ==> BlocksAt(start, buffer, from + |line| + 1)
      ensures NeverBlocks(callbacks) ==> reply != Block
    {
      hide Parse, LineStep;
      ghost var before := View();
      ghost var after := EndLine(callbacks, before.(line := line));
      EndLineLog(before.(line := line));
      reply := ProcessLine(TrimRight(line));
      used := used + |line| + 1;
      ghost var end := View().(status := if reply.Finish? then Stopped(reply.error) else Running);
      assert after.status.Overread? || after == end;
      WholeLine(start, before, buffer, from, from + |line|, end);
      LineReply(start, before, buffer, from, from + |line|, reply);
    }

    /** A line up to here has made its callback block, or an overread has been met before. */
    ghost predicate BlocksAt(start: Config, buffer: string, n: nat)
      requires n <= |buffer|
    {
      Parse(callbacks, start, buffer[..n]).status.Overread? || LineBlocks(callbacks, start, buffer[..n])
    }

    lemma LineReply(start: Config, c: Config, buffer: string, from: nat, pos: nat, reply: Reply)
      requires from <= pos < |buffer| && Reached(start, buffer, from, c)
      requires c.status.Running? && InLine(c.parser) && c.line == ""
      requires '\n' !in buffer[from..pos] && buffer[pos] == '\n'
      requires match LineStep(callbacks, c.parser, TrimRight(buffer[from..pos]))
        case PastTheLine => true case Line(_, _, r) => reply == r
      ensures reply == Block ==> BlocksAt(start, buffer, pos + 1)
    {
      hide LineStep, Parse, InLine;
      var line := buffer[from..pos];
      ParseInLine(callbacks, c, line);
      ParseLine(callbacks, c, line);
      Advance(start, c, buffer, from, pos);
      Advance(start, c, buffer, from, pos + 1);
      assert c.line + line == line && buffer[from..pos + 1] == line + "\n";
      var s := buffer[..pos + 1];
      assert s[..|s| - 1] == buffer[..pos];
    }

    lemma EndLineLog(c: Config)
      requires InLine(c.parser)
      ensures EndLine(callbacks, c).status.Overread? ==> EndLine(callbacks, c).log == c.log
    {
    }

    /** One pass of the loop of Process over the document bytes `data` at `from`. */
    method SomeOfTheData(data: string, ghost start: Config, ghost buffer: string, ghost from: nat)
      returns (reply: Reply, read: nat)
      requires data != "" && Accepts(View().parser, |data|) && dataSize != 0
      requires from + |data| <= |buffer| && data == buffer[from..from + |data|]
      requires Reached(start, buffer, from, View())
      modifies this`dataSize, this`log, this`used
      ensures read <= |data| && used == old(used) + read && (reply.Continue? <==> read > 0) && old(log) <= log
      ensures accepting ==> reply.Continue?
      ensures !reply.Continue? ==> View() == old(View())
      ensures !accepting && stalling ==> reply == Block && View() == old(View())
      ensures reply.Finish? ==> reply.error == StreamFailed
      ensures Reached(start, buffer, from + read, View())
    {
      ghost var before := View();
      reply, read := ProcessData(data);
      assert data[..read] == buffer[from..from + read];
      SomeData(start, before, buffer, from, read);
      if reply != Continue {
        assert log == before.log;
        return;
      }
      used := used + read;
      if dataSize != SIZE_UNKNOWN {
        dataSize := dataSize - read;
      }
      assert View() == AfterData(before, data[..read]);
    }

    /** One pass of the loop of Process where lines are read: what is left may be no whole line. */
    method NextLine(buffer: string, from: nat, ghost start: Config) returns (whole: bool, reply: Reply, to: nat)
      requires from <= |buffer| && InLine(View().parser) && Reached(start, buffer, from, View())
      modifies this`state, this`chunked, this`dataSize, this`log, this`used
      ensures state != Complete && old(log) <= log && from <= to <= |buffer| && used == old(used) + to - from
      ensures if whole then from < to && (reply == Continue ==> Reached(start, buffer, to, View()))
              else reply == Continue && to == from && View() == old(View())
      ensures !whole || reply != Continue ==> Outcome(start, View(), accepting, buffer, reply, to)
      ensures NeverBlocks(callbacks) ==> reply != Block
    {
      hide Parse, LineStep, Settle, Reached, Leads, Outcome;
      to := from;
      while to < |buffer| && buffer[to] != '\n'
        invariant from <= to <= |buffer| && '\n' !in buffer[from..to]
      {
        to := to + 1;
      }
      if to >= |buffer| {
        PartialLine(start, View(), buffer, from);
        return false, Continue, from;
      }
      whole := true;
      var line := buffer[from..to];
      reply := EndOfLine(line, start, buffer, from);
      to := to + 1;
      Answers(start, View(), accepting, buffer, reply, to);
    }

    /** One pass of the loop of Process where document data is wanted: there may be none. */
    method NextData(buffer: string, from: nat, ghost start: Config) returns (some: bool, reply: Reply, to: nat)
      requires from <= |buffer| && state == Data && dataSize != 0 && Reached(start, buffer, from, View())
      modifies this`dataSize, this`log, this`used
      ensures old(log) <= log && from <= to <= |buffer| && used == old(used) + to - from
      ensures if some then reply == Continue ==> from < to && Reached(start, buffer, to, View())
              else reply == Continue && to == from && View() == old(View())
      ensures !some || reply != Continue ==> Outcome(start, View(), accepting, buffer, reply, to)
      ensures accepting ==> reply == Continue
      ensures from < |buffer| && !accepting && stalling ==> reply == Block && to == from && View() == old(View())
    {
      hide Parse, LineStep, Settle, Reached, Leads, Outcome;
      var available := |buffer| - from;
      if available == 0 {
        AllProcessed(start, View(), accepting, buffer);
        return false, Continue, from;
      }
      if dataSize != SIZE_UNKNOWN && available > dataSize {
        available := dataSize;
      }
      some := true;
      var read;
      reply, read := SomeOfTheData(buffer[from..from + available], start, buffer, from);
      to := from + read;
      DataAnswers(start, View(), accepting, buffer, reply, to);
    }

    /**
     Process on one buffer. Unless the reference automaton meets an overread in the processed bytes:
     - PR_CONTINUE: the automaton is where the parser is, with the bytes not processed as its line in progress;
     - PR_COMPLETE from the parser: the automaton stopped with the same error, exactly after the processed bytes;
     - PR_BLOCK, or PR_COMPLETE because ProcessData failed: the automaton after the processed bytes goes on from
       where the parser is, and there is data that the document does not take, or the last line has made its callback
       block.
     Behind an overread, what the automaton has logged before it has been logged.
     */
    method Process(buffer: string) returns (reply: Reply, processed: nat)
      modifies this`state, this`chunked, this`dataSize, this`log, this`used
      ensures processed <= |buffer| && used == old(used) + processed && old(log) <= log
      ensures accepting && NeverBlocks(callbacks) ==> reply != Block
      ensures old(state) == Complete ==> View() == old(View()) && reply == Finish(NoError)
      ensures old(state) != Complete ==>
        state != Complete && Outcome(old(View()), View(), accepting, buffer, reply, processed)
      ensures old(Halted(buffer)) ==> reply == Block && processed == 0 && View() == old(View())
    {
      hide Parse, LineStep, Settle, Reached, Leads, Outcome;
      processed := 0;
      if state == Complete {
        return Finish(NoError), 0;
      }
      ghost var start := View();
      ghost var halted := Halted(buffer);
      Begin(start, buffer);
      while true
        invariant processed <= |buffer| && used == start.used + processed && state != Complete && start.log <= log
        invariant Reached(start, buffer, processed, View())
        invariant halted ==> processed == 0 && View() == start
        decreases |buffer| - processed, if state == Data && dataSize == 0 then 1 else 0
      {
        if state != Data {
          var whole;
          whole, reply, processed := NextLine(buffer, processed, start);
          if !whole {
            break;
          }
          if reply != Continue {
            return;
          }
        } else if dataSize == 0 {
          Settles(start, View(), buffer, processed);
          if chunked {
            state := ChunkTerm;
          } else {
            return Finish(NoError), processed;
          }
        } else {
          var some;
          some, reply, processed := NextData(buffer, processed, start);
          if !some {
            break;
          }
          if reply != Continue {
            return;
          }
        }
      }
      reply := Continue;
    }

    /** The reply to a line, as the outcome of the call. */
    lemma Answers(start: Config, c: Config, accepting: bool, buffer: string, reply: Reply, n: nat)
      requires n <= |buffer| && c.status.Running? && (reply == Block ==> BlocksAt(start, buffer, n))
      requires Leads(start, buffer, n, c.(status := if reply.Finish? then Stopped(reply.error) else Running))
      ensures reply != Continue ==> Outcome(start, c, accepting, buffer, reply, n)
      ensures reply == Continue ==> Reached(start, buffer, n, c)
    {
      hide LineBlocks;
    }

    lemma DataAnswers(start: Config, c: Config, accepting: bool, buffer: string, reply: Reply, n: nat)
      requires n <= |buffer| && Reached(start, buffer, n, c)
      requires reply != Continue ==> Unwilling(c, accepting, buffer, n)
      requires reply.Finish? ==> reply.error == StreamFailed
      ensures reply != Continue ==> Outcome(start, c, accepting, buffer, reply, n)
    {
    }

    /** No data is left to be delivered: the parser goes on to the end of the chunk, or the message is over. */
    lemma Settles(start: Config, c: Config, buffer: string, n: nat)
      requires n <= |buffer| && Reached(start, buffer, n, c)
      requires c.status.Running? && c.parser.state == Data && c.parser.dataSize == 0
      ensures c.parser.chunked ==> Reached(start, buffer, n, c.(parser := c.parser.(state := ChunkTerm)))
      ensures !c.parser.chunked ==> forall accepting: bool :: Outcome(start, c, accepting, buffer, Finish(NoError), n)
    {
      NoMore(start, c, buffer, n);
    }

    lemma AllProcessed(start: Config, c: Config, accepting: bool, buffer: string)
      requires Reached(start, buffer, |buffer|, c) && c.line == "" && c.status.Running?
      requires c.parser.state == Data && c.parser.dataSize != 0
      ensures Outcome(start, c, accepting, buffer, Continue, |buffer|)
    {
      NoMore(start, c, buffer, |buffer|);
      assert buffer[|buffer|..] == "";
    }

    /** Document data is wanted and there, and the document takes none. */
    predicate Halted(buffer: string)
      reads this
    {
      !accepting && stalling && state == Data && dataSize != 0 && buffer != ""
    }

    /** The automaton goes on from `c` after the first `n` bytes, or has met an overread in them. */
    ghost predicate Reached(start: Config, buffer: string, n: nat, c: Config)
      requires n <= |buffer|
    {
      var d := Parse(callbacks, start, buffer[..n]);
      if d.status.Overread? then d.log <= c.log else d == Settle(c)
    }

    lemma Begin(start: Config, buffer: string)
      requires start.status.Running?
      ensures Reached(start, buffer, 0, start)
    {
    }

    lemma PartialLine(start: Config, c: Config, buffer: string, from: nat)
      requires from <= |buffer| && Reached(start, buffer, from, c)
      requires c.status.Running? && InLine(c.parser) && c.line == "" && '\n' !in buffer[from..]
      ensures forall accepting: bool :: Outcome(start, c, accepting, buffer, Continue, from)
    {
      ParseInLine(callbacks, c, buffer[from..]);
      Advance(start, c, buffer, from, |buffer|);
      assert c.line + buffer[from..] == buffer[from..] && buffer[..|buffer|] == buffer;
    }

    lemma WholeLine(start: Config, c: Config, buffer: string, from: nat, pos: nat, end: Config)
      requires from <= pos < |buffer| && Reached(start, buffer, from, c)
      requires c.status.Running? && InLine(c.parser) && c.line == "" && c.log <= end.log
      requires '\n' !in buffer[from..pos] && buffer[pos] == '\n'
      requires var after := EndLine(callbacks, c.(line := buffer[from..pos]));
        if after.status.Overread? then after.log <= end.log else after == end
      ensures Leads(start, buffer, pos + 1, end)
    {
      hide Parse, EndLine;
      var after := EndLine(callbacks, c.(line := buffer[from..pos]));
      assert buffer[from..pos + 1] == buffer[from..pos] + "\n";
      ParseLine(callbacks, c, buffer[from..pos]);
      Jump(start, c, buffer, from, pos + 1, after, end);
    }

    lemma SomeData(start: Config, c: Config, buffer: string, from: nat, n: nat)
      requires from + n <= |buffer| && Reached(start, buffer, from, c)
      requires c.status.Running? && Accepts(c.parser, n)
      ensures Reached(start, buffer, from + n, AfterData(c, buffer[from..from + n]))
    {
      hide Parse;
      var d := AfterData(c, buffer[from..from + n]);
      ParseData(callbacks, c, buffer[from..from + n]);
      Jump(start, c, buffer, from, from + n, d, d);
    }

    /** Reached; and from a stopped configuration, or at the end of the buffer, nothing changes any more. */
    ghost predicate Leads(start: Config, buffer: string, n: nat, c: Config)
      requires n <= |buffer|
    {
      && Reached(start, buffer, n, c)
      && ((n == |buffer| || !Settle(c).status.Running?) && !Parse(callbacks, start, buffer[..n]).status.Overread? ==>
            Parse(callbacks, start, buffer) == Settle(c))
    }

    lemma Jump(start: Config, c: Config, buffer: string, from: nat, to: nat, d: Config, end: Config)
      requires from <= to <= |buffer| && Reached(start, buffer, from, c) && c.log <= end.log
      requires Parse(callbacks, c, buffer[from..to]) == Settle(d)
      requires if d.status.Overread? then d.log <= end.log else d == end
      ensures Leads(start, buffer, to, end)
    {
      Advance(start, c, buffer, from, to);
      NoMore(start, end, buffer, to);
    }

    lemma NoMore(start: Config, c: Config, buffer: string, n: nat)
      requires n <= |buffer| && Reached(start, buffer, n, c)
      ensures Leads(start, buffer, n, c)
    {
      if n == |buffer| {
        assert buffer[..n] == buffer;
      } else if !Settle(c).status.Running? && !Parse(callbacks, start, buffer[..n]).status.Overread? {
        Advance(start, c, buffer, n, |buffer|);
        assert buffer[..|buffer|] == buffer;
        ParseFromSettled(callbacks, c, buffer[n..]);
        ParseStopped(callbacks, Settle(c), buffer[n..]);
      }
    }

    lemma Advance(start: Config, c: Config, buffer: string, from: nat, to: nat)
      requires from <= to <= |buffer| && Reached(start, buffer, from, c)
      ensures var before, after := Parse(callbacks, start, buffer[..from]), Parse(callbacks, start, buffer[..to]);
        after == if before.status.Overread? then before else Parse(callbacks, c, buffer[from..to])
    {
      var before := Parse(callbacks, start, buffer[..from]);
      ParseConcat(callbacks, start, buffer[..from], buffer[from..to]);
      assert buffer[..from] + buffer[from..to] == buffer[..to];
      if before.status.Overread? {
        ParseStopped(callbacks, before, buffer[from..to]);
      } else {
        ParseFromSettled(callbacks, c, buffer[from..to]);
      }
    }

    /** What Process(buffer) may answer, and where it may leave the parser, by the automaton started from `start`. */
    ghost predicate Outcome(start: Config, end: Config, accepting: bool, buffer: string, reply: Reply, processed: nat)
      requires processed <= |buffer|
    {
      var done, whole := Parse(callbacks, start, buffer[..processed]), Parse(callbacks, start, buffer);
      if done.status.Overread? then done.log <= end.log
      else
        match reply
        case Continue => whole == end.(line := buffer[processed..]) && done == Settle(end)
        case Block =>
          && done == Settle(end)
          && (Unwilling(end, accepting, buffer, processed) || LineBlocks(callbacks, start, buffer[..processed]))
        case Finish(e) =>
          || whole == end.(status := Stopped(e))
          || (Unwilling(end, accepting, buffer, processed) && e == StreamFailed && done == Settle(end))
    }

    /** There is data for a document that does not take any more. */
    predicate Unwilling(c: Config, accepting: bool, buffer: string, processed: nat) {
      !accepting && c.parser.state == Data && c.parser.dataSize != 0 && processed < |buffer|
    }
  }

  /** An overread in a beginning of the stream is one in the stream. */
  lemma OverreadStays(cb: Callbacks, start: Config, s: string, n: nat)
    requires n <= |s| && Parse(cb, start, s[..n]).status.Overread?
    ensures Parse(cb, start, s).status.Overread?
  {
    assert s == s[..n] + s[n..];
    ParseConcat(cb, start, s[..n], s[n..]);
    ParseStopped(cb, Parse(cb, start, s[..n]), s[n..]);
  }

  /**
   Two parsers in the same state, one of which gets the stream in two buffers, the second one with the tail that the
   first call left: they make the same callbacks, process the same bytes, and end with the same result and fields.
   */
  method ProcessSplit(p: HttpParser, q: HttpParser, s: string, t: string)
    returns (reply: Reply, processed: nat, wholeReply: Reply, wholeProcessed: nat)
    requires p != q && p.View() == q.View() && p.callbacks == q.callbacks && p.state != Complete
    requires p.accepting && q.accepting && NeverBlocks(p.callbacks)
    modifies p, q
    ensures !old(Parse(p.callbacks, p.View(), s + t)).status.Overread? ==>
      p.View() == q.View() && reply == wholeReply && processed == wholeProcessed
  {
    hide LineStep, Parse;
    ghost var cb, start := p.callbacks, p.View();
    wholeReply, wholeProcessed := q.Process(s + t);
    reply, processed := p.Process(s);
    ghost var first := Parse(cb, start, s);
    ghost var safe := !Parse(cb, start, s + t).status.Overread?;
    if safe {
      ParseConcat(cb, start, s, t);
      NoOverread(cb, start, s + t, wholeProcessed);
      assert (s + t)[..processed] == s[..processed];
      NoOverread(cb, start, s + t, processed);
      if !first.status.Running? {
        ParseStopped(cb, first, t);
      }
    }
    if reply == Continue {
      if safe {
        SplitInvariance(cb, start, s, t);
        assert p.View() == first.(line := "") && first.line == s[processed..];
      }
      var more;
      ghost var mid := p.View();
      reply, more := p.Process(s[processed..] + t);
      if safe {
        NoOverread(cb, mid, s[processed..] + t, more);
      }
      processed := processed + more;
    }
  }

  lemma NoOverread(cb: Callbacks, start: Config, s: string, n: nat)
    requires n <= |s| && !Parse(cb, start, s).status.Overread?
    ensures !Parse(cb, start, s[..n]).status.Overread?
  {
    if Parse(cb, start, s[..n]).status.Overread? {
      OverreadStays(cb, start, s, n);
    }
  }
}
