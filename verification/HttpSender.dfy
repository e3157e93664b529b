/** The sending half of HttpBase: headers and document through a 32 KB buffer to the network. */
module HttpSending {
  import opened Ascii
  import opened HttpGrammar
  import opened HttpMessage

  datatype StreamResult = Success | Blocked | EndOfStream | Failed(code: int)

  /** What has ended the sending early. */
  datatype Failure = NoFailure | NetworkFailed(code: int) | DocumentFailed

  class HttpSender {
    const buffer: array<char>
    var len: nat
    var chunkData: bool
    var header: nat

    /** mode_ is HM_SEND, and what onHttpComplete was told last. */
    var sending: bool
    var completed: Option<HttpError>

    /** data_: leader, headers in the order of the map, and the document stream with its position. */
    var leader: string
    var fields: seq<Field>
    var document: Option<string>
    var position: nat

    /** Bytes accepted by the network since send(). */
    var wire: string

    /** The reads that the document was cut into. */
    ghost var cuts: seq<string>

    /** The last call of the network or of the document blocked; and how many there have been. */
    ghost var stalled: bool
    ghost var calls: nat

    /** And one has failed since send(). */
    ghost var failure: Failure

    constructor ()
      ensures buffer.Length == BUFFER_SIZE && fresh(buffer) && !sending
    {
      buffer := new char[BUFFER_SIZE];
      len, header, position := 0, 0, 0;
      chunkData, sending, completed := false, false, None;
      leader, fields, document, wire, cuts := "", [], None, "", [];
      stalled, calls, failure := false, 0, NoFailure;
    }

    ghost predicate Chunking()
      reads this
    {
      WantsChunks(fields)
    }

    /** Headers and leader queued so far, without the empty line behind them. */
    ghost function HeadSoFar(): string
      requires header <= |fields|
      reads this
    {
      LeaderPart(leader) + FormatFields(fields[..header])
    }

    ghost function BodySoFar(): string
      reads this
    {
      Pieces(Chunking(), cuts) + if Chunking() && !chunkData then LAST_CHUNK else ""
    }

    /** Everything but the bytes: sizes, and how far the document has been read. */
    ghost predicate Consistent()
      reads this, buffer
    {
      && buffer.Length == BUFFER_SIZE && len <= BUFFER_SIZE && header <= |fields|
      && (chunkData ==> Chunking())
      && (header < |fields| ==> len < BUFFER_SIZE && cuts == [] && chunkData == Chunking())
      && (match document
          case None => cuts == [] && chunkData == Chunking()
          case Some(content) =>
            && position <= |content| && Flatten(cuts) == content[..position]
            && (Chunking() && !chunkData ==> position == |content|))
      && (forall cut :: cut in cuts ==> 0 < |cut| <= BUFFER_SIZE)
    }

    /** Written bytes and then the buffer are exactly what has been queued. */
    ghost predicate Valid()
      reads this, buffer
    {
      && Consistent()
      && wire + buffer[..len] == if header < |fields| then HeadSoFar() else Head(leader, fields) + BodySoFar()
    }

    /** The message on the wire is whole. */
    ghost predicate AllSent()
      reads this
    {
      match document
      case None => wire == Head(leader, fields)
      case Some(content) =>
        && wire == Head(leader, fields) + Body(Chunking(), cuts)
        && Flatten(cuts) == content && (forall cut :: cut in cuts ==> 0 < |cut| <= BUFFER_SIZE)
    }

    /** Why it is over: all has been sent, or what has failed. */
    ghost predicate Ended()
      reads this
    {
      match failure
      case NoFailure => completed == Some(NoError) && AllSent()
      case DocumentFailed => completed == Some(StreamFailed)
      case NetworkFailed(code) => completed.Some? && Reports(completed.value, code)
    }

    /** The message spelled out. */
    lemma AllSentIs()
      requires AllSent()
      ensures wire == match document
        case None => Head(leader, fields)
        case Some(content) =>
          Head(leader, fields) + if SaysChunked(fields) then Chunks(cuts) + "0\r\n\r\n" else content
      ensures document.Some? ==> Flatten(cuts) == document.value
      ensures document.Some? ==> forall cut :: cut in cuts ==> 0 < |cut| <= BUFFER_SIZE
    {
      hide Head, SaysChunked, WantsChunks;
      WantsChunksIff(fields);
      PiecesAre(cuts);
    }

    /** Bytes that are still to be written, with the overhead of chunks charged to the unread bytes. */
    ghost function Unsent(): nat
      reads this
    {
      len
      + (if header < |fields| then FieldBytes(fields[header..]) + 2 else 0)
      + 13 * Unread()
      + (if chunkData then |LAST_CHUNK| else 0)
    }

    ghost function Unread(): nat
      reads this
    {
      if document.Some? && position < |document.value| then |document.value| - position else 0
    }

    /** The headers from the iterator on, and the empty line behind them, are still to be queued. */
    ghost predicate HeadPending()
      reads this, buffer
    {
      && Consistent() && len < BUFFER_SIZE && wire + buffer[..len] == HeadSoFar()
      && (header < |fields| || (fields == [] && wire == "" && cuts == [] && chunkData == Chunking()))
    }

    lemma PendingIfValid()
      requires Valid() && header != |fields|
      ensures HeadPending() && header < |fields|
    {
    }

    lemma HeaderInRange()
      requires Valid()
      ensures header <= |fields|
    {
    }

    lemma NothingLeft()
      requires Valid() && len == 0 && header == |fields|
      requires document.Some? ==> position == |document.value| && !chunkData
      ensures AllSent()
    {
      hide Head, WantsChunks, Flatten;
      assert buffer[..len] == "" && wire + "" == wire;
      if document == None {
        assert Pieces(Chunking(), []) + "" == "";
        assert Head(leader, fields) + "" == Head(leader, fields);
      } else {
        assert document.value[..position] == document.value;
      }
    }

    // ---------------------------------------------------------------- the environment

    /** Write on the network. */
    method Write() returns (result: StreamResult, written: nat)
      requires 0 < len <= buffer.Length
      modifies this`wire, this`stalled, this`calls, this`failure
      ensures stalled == (result == Blocked) && calls == old(calls) + 1
      ensures failure == if result.Failed? then NetworkFailed(result.code) else old(failure)
      ensures written <= len && (result == Success <==> written > 0) && result != EndOfStream
      ensures wire == old(wire) + buffer[..written]
    {
      result :| result != EndOfStream;
      written := 0;
      if result == Success {
        written :| 1 <= written <= len;
      }
      wire := wire + buffer[..written];
      stalled, calls := result == Blocked, calls + 1;
      failure := if result.Failed? then NetworkFailed(result.code) else failure;
    }

    /** Read on the document stream, straight into the buffer. The end of the stream, once reached, is final. */
    method ReadDocument(offset: nat, room: nat) returns (result: StreamResult, read: nat)
      requires document.Some? && position <= |document.value| && room > 0 && offset + room <= buffer.Length
      modifies this`position, this`stalled, this`calls, this`failure, buffer
      ensures stalled == (result == Blocked) && calls == old(calls) + 1
      ensures failure == if result.Failed? then DocumentFailed else old(failure)
      ensures position == old(position) + read && read <= room && position <= |document.value|
      ensures result == Success <==> read > 0
      ensures result == EndOfStream ==> position == |document.value|
      ensures buffer[..offset] == old(buffer[..offset])
      ensures buffer[offset..offset + read] == document.value[old(position)..position]
    {
      read := 0;
      if position == |document.value| {
        result :| result != Success;
      } else {
        result :| result != EndOfStream;
      }
      stalled, calls := result == Blocked, calls + 1;
      failure := if result.Failed? then DocumentFailed else failure;
      if result == Success {
        read :| 1 <= read <= room && position + read <= |document.value|;
        forall i | 0 <= i < read {
          buffer[offset + i] := document.value[position + i];
        }
        position := position + read;
      }
    }

    // ---------------------------------------------------------------- the buffer

    /** memcpy, sprintfn or strcpyn to `at`. */
    method Put(at: nat, s: string)
      requires at + |s| <= buffer.Length
      modifies buffer
      ensures buffer[..at + |s|] == old(buffer[..at]) + s && buffer[..at] == old(buffer[..at])
      ensures buffer[at + |s|..] == old(buffer[at + |s|..])
    {
      forall i | 0 <= i < |s| {
        buffer[at + i] := s[i];
      }
    }

    /** memmove of the unwritten bytes to the front. */
    method DropFront(n: nat)
      requires n <= len <= buffer.Length
      modifies this`len, buffer
      ensures len == old(len) - n && buffer[..len] == old(buffer[n..len])
    {
      len := len - n;
      forall i | 0 <= i < len {
        buffer[i] := buffer[i + n];
      }
    }

    // ---------------------------------------------------------------- queueing

    /** One pass of the loop of queue_headers: whether the header at the iterator is dealt with. */
    method QueueField() returns (passed: bool)
      requires buffer.Length == BUFFER_SIZE && len < BUFFER_SIZE && header < |fields|
      requires wire + buffer[..len] == HeadSoFar()
      modifies this`len, this`header, buffer
      ensures header == old(header) + if passed then 1 else 0
      ensures if passed then len < BUFFER_SIZE - 3 else len > 0 && len == old(len)
      ensures wire + buffer[..len] == HeadSoFar()
      ensures len + FieldBytes(fields[header..]) <= old(len + FieldBytes(fields[header..]))
    {
      hide FormatField, FormatFields, FieldBytes, LeaderPart;
      var line := Clip(FormatField(fields[header]), BUFFER_SIZE - len);
      FieldQueued(LeaderPart(leader), fields, header, wire, buffer[..len], line);
      hide Clip;
      Put(len, line);
      if len + |line| < BUFFER_SIZE - 3 {
        len := len + |line|;
        header := header + 1;
        passed := true;
      } else {
        passed := len == 0;
        header := header + if passed then 1 else 0;
      }
    }

    /** The loop of queue_headers: true if the buffer must be written before the next header fits. */
    method QueueFields() returns (sendRequired: bool)
      requires buffer.Length == BUFFER_SIZE && header <= |fields| && len < BUFFER_SIZE
      requires wire + buffer[..len] == HeadSoFar()
      modifies this`len, this`header, buffer
      ensures header <= |fields| && len < BUFFER_SIZE && wire + buffer[..len] == HeadSoFar()
      ensures if sendRequired then len > 0 && header < |fields| else header == |fields|
      ensures !sendRequired && old(header) < |fields| ==> len < BUFFER_SIZE - 3
      ensures len + FieldBytes(fields[header..]) <= old(len + FieldBytes(fields[header..]))
      ensures old(header) == |fields| ==> wire == old(wire) && buffer[..len] == old(buffer[..len])
    {
      hide FormatFields, FieldBytes, LeaderPart;
      ghost var bytes := len + FieldBytes(fields[header..]);
      while header < |fields|
        invariant old(header) <= header <= |fields| && len < BUFFER_SIZE && wire + buffer[..len] == HeadSoFar()
        invariant old(header) < header == |fields| ==> len < BUFFER_SIZE - 3
        invariant header == old(header) ==> len == old(len) && buffer[..len] == old(buffer[..len])
        invariant len + FieldBytes(fields[header..]) <= bytes
      {
        var passed := QueueField();
        if !passed {
          return true;
        }
      }
      return false;
    }

    /** queue_headers. True: the buffer must be written before the next header fits. False: the head is complete. */
    method QueueHeaders() returns (sendRequired: bool)
      requires HeadPending()
      modifies this`len, this`header, buffer
      ensures Valid() && (if sendRequired then len > 0 && header < |fields| else header == |fields|)
      ensures old(header) < |fields| ==> Unsent() <= old(Unsent())
    {
      hide FormatFields, FieldBytes, LeaderPart, Head, Pieces, WantsChunks, Flatten, Clip;
      sendRequired := QueueFields();
      if !sendRequired {
        EndHead();
      }
    }

    /** The empty line behind the headers. */
    method EndHead()
      requires Consistent() && len < BUFFER_SIZE && header == |fields| && cuts == [] && chunkData == Chunking()
      requires wire + buffer[..len] == HeadSoFar() && if fields == [] then wire == "" else len < BUFFER_SIZE - 3
      modifies this`len, buffer
      ensures Valid() && len <= old(len) + 2
    {
      hide FormatFields, LeaderPart, Head, Pieces, WantsChunks, Flatten, Clip;
      assert fields[..header] == fields;
      var line := Clip(CRLF, BUFFER_SIZE - len);
      HeadDone(leader, fields, wire, buffer[..len], line);
      Put(len, line);
      len := len + |line|;
    }

    /** Completes the chunk around `read` bytes of data, in front of which room for the size was left. */
    method FrameChunk(offset: nat, read: nat)
      requires buffer.Length == BUFFER_SIZE && offset == len + CHUNK_DIGITS + 2 && offset + read + 2 <= BUFFER_SIZE
      modifies buffer
      ensures buffer[..offset + read + 2] == old(buffer[..len]) + Chunk(old(buffer[offset..offset + read]))
    {
      hide Hex;
      ghost var before, queued, data := buffer[..], buffer[..len], buffer[offset..offset + read];
      ghost var hex := Hex(read, CHUNK_DIGITS);
      Put(len, Hex(read, CHUNK_DIGITS));
      ghost var sized := buffer[..];
      SameSlice(before, sized, len + CHUNK_DIGITS, offset, offset + read);
      Put(len + CHUNK_DIGITS, CRLF);
      SameSlice(sized, buffer[..], offset, offset, offset + read);
      assert buffer[..offset + read] == ((queued + hex) + CRLF) + data;
      Put(offset + read, CRLF);
      Framed(queued, hex, data);
    }

    /** Accounts for a successful read of `read` bytes, which lie in the buffer at `offset`. */
    method QueueRead(offset: nat, read: nat)
      requires document.Some? && read <= position <= |document.value| && read > 0 && header == |fields|
      requires buffer.Length == BUFFER_SIZE && chunkData == Chunking()
      requires offset == (if chunkData then len + CHUNK_DIGITS + 2 else len)
      requires offset + read + (if chunkData then 2 else 0) <= BUFFER_SIZE
      requires wire + buffer[..len] == Head(leader, fields) + BodySoFar()
      requires Flatten(cuts) + buffer[offset..offset + read] == document.value[..position]
      requires forall cut :: cut in cuts ==> 0 < |cut| <= BUFFER_SIZE
      modifies this`len, this`cuts, buffer
      ensures Valid() && len == offset + read + if chunkData then 2 else 0
    {
      hide Chunk, Pieces, Flatten, WantsChunks, Head, LeaderPart, FormatFields, FieldBytes;
      ghost var queued, data := buffer[..len], buffer[offset..offset + read];
      ghost var piece := if chunkData then Chunk(data) else data;
      QueuedPiece(wire, queued, Head(leader, fields), Pieces(Chunking(), cuts), piece);
      NextCut(Chunking(), cuts, data);
      if chunkData {
        FrameChunk(offset, read);
      } else {
        assert buffer[..offset + read] == queued + data;
      }
      len := offset + read + if chunkData then 2 else 0;
      cuts := cuts + [data];
    }

    /** The empty chunk and the empty trailer behind the document. */
    method QueueLastChunk()
      requires Valid() && header == |fields| && document.Some? && position == |document.value| && chunkData
      requires len + |LAST_CHUNK| <= BUFFER_SIZE
      modifies this`len, this`chunkData, buffer
      ensures Valid() && !chunkData && len == old(len) + |LAST_CHUNK|
    {
      hide Pieces, Flatten, WantsChunks, Head;
      QueuedPiece(wire, buffer[..len], Head(leader, fields), Pieces(Chunking(), cuts), LAST_CHUNK);
      Put(len, LAST_CHUNK);
      len := len + |LAST_CHUNK|;
      chunkData := false;
    }

    /** At the end of the document: the last chunk, or success once all is written. */
    method EndDocument() returns (sendRequired: bool, ended: Option<HttpError>)
      requires Valid() && header == |fields| && document.Some? && position == |document.value|
      requires len + (if chunkData then CHUNK_DIGITS + 4 else 0) < BUFFER_SIZE
      modifies this`len, this`chunkData, buffer
      ensures Valid() && Unsent() <= old(Unsent())
      ensures if sendRequired then ended == None && len > 0 else ended == Some(NoError) && AllSent()
    {
      hide Pieces, Flatten, WantsChunks, Head, AllSent;
      if chunkData {
        QueueLastChunk();
      } else if len == 0 {
        NothingLeft();
        return false, Some(NoError);
      }
      return true, None;
    }

    /** Reads into the buffer at `offset`, and queues what has been read. */
    method ReadPiece(offset: nat) returns (result: StreamResult)
      requires Valid() && header == |fields| && document.Some?
      requires offset == (if chunkData then len + CHUNK_DIGITS + 2 else len)
      requires offset + (if chunkData then 2 else 0) < BUFFER_SIZE
      modifies this`len, this`position, this`cuts, this`stalled, this`calls, this`failure, buffer
      ensures Valid() && stalled == (result == Blocked) && calls == old(calls) + 1
      ensures failure == if result.Failed? then DocumentFailed else old(failure)
      ensures if result == Success then len > 0 && Unread() < old(Unread()) && Unsent() <= old(Unsent())
              else len == old(len) && position == old(position)
      ensures result == EndOfStream ==> position == |document.value|
    {
      hide Pieces, Flatten, WantsChunks, Head, LeaderPart, FormatFields, FieldBytes;
      ghost var queued, from := buffer[..len], position;
      var read;
      result, read := ReadDocument(offset, BUFFER_SIZE - offset - if chunkData then 2 else 0);
      assert buffer[..len] == buffer[..offset][..len] == queued;
      if result == Success {
        assert document.value[..position] == document.value[..from] + document.value[from..position];
        QueueRead(offset, read);
      }
    }

    /** Queues one read of the document, or the last chunk at its end; or tells how the message ended. */
    method QueueDocument() returns (sendRequired: bool, ended: Option<HttpError>)
      requires Valid() && header == |fields| && document.Some?
      modifies this`len, this`position, this`chunkData, this`cuts, this`stalled, this`calls, this`failure, buffer
      ensures Valid() && Unsent() <= old(Unsent())
      ensures !sendRequired && ended == None ==> Unread() < old(Unread())
      ensures ended == None ==> len > 0 || (stalled && calls > old(calls))
      ensures calls >= old(calls)
      ensures ended == Some(NoError) ==> AllSent() && failure == old(failure)
      ensures ended.Some? && ended != Some(NoError) ==> ended == Some(StreamFailed) && failure == DocumentFailed
      ensures ended == None ==> failure == old(failure)
    {
      hide Pieces, Flatten, WantsChunks, Head, AllSent, Valid;
      var offset := if chunkData then len + CHUNK_DIGITS + 2 else len;
      var reserve := if chunkData then offset + 2 else offset;
      if reserve >= BUFFER_SIZE {
        return true, None;
      }
      var result := ReadPiece(offset);
      match result {
        case Success =>
          return false, None;
        case Blocked =>
          return true, None;
        case EndOfStream =>
          sendRequired, ended := EndDocument();
        case Failed(_) =>
          return false, Some(StreamFailed);
      }
    }

    // ---------------------------------------------------------------- sending

    method DoComplete(error: HttpError)
      modifies this`sending, this`completed
      ensures !sending && completed == Some(error)
      ensures (old(Valid()) ==> Valid()) && (old(AllSent()) ==> AllSent())
    {
      hide Pieces, Flatten, WantsChunks, Head, LeaderPart, FormatFields;
      sending, completed := false, Some(error);
    }

    /** Writes what the network takes of the buffer, and moves the rest to the front. */
    method WriteSome() returns (result: StreamResult)
      requires 0 < len <= buffer.Length
      modifies this`len, this`wire, this`stalled, this`calls, this`failure, buffer
      ensures len <= old(len) && old(wire) <= wire && stalled == (result == Blocked) && result != EndOfStream
      ensures calls == old(calls) + 1
      ensures failure == if result.Failed? then NetworkFailed(result.code) else old(failure)
      ensures wire + buffer[..len] == old(wire + buffer[..len])
      ensures if result == Success then len < old(len) else len == old(len) && wire == old(wire)
    {
      ghost var before, bytes := wire, buffer[..len];
      var written;
      result, written := Write();
      assert bytes[..written] == buffer[..written] && bytes[written..] == buffer[written..len];
      if result == Success {
        DropFront(written);
      } else {
        assert buffer[..len] == bytes[written..];
      }
      Rest(before, bytes, written);
    }

    /** The same, for a message in progress. */
    method WriteBuffer() returns (result: StreamResult)
      requires Valid() && len > 0
      modifies this`len, this`wire, this`stalled, this`calls, this`failure, buffer
      ensures old(wire) <= wire && stalled == (result == Blocked) && calls == old(calls) + 1
      ensures failure == if result.Failed? then NetworkFailed(result.code) else old(failure)
      ensures Valid() && result != EndOfStream
      ensures result == Success ==> Unsent() < old(Unsent())
      ensures result != Success ==> Unsent() == old(Unsent()) && len == old(len) && wire == old(wire)
    {
      hide Pieces, Flatten, WantsChunks, Head, LeaderPart, FormatFields, FieldBytes;
      result := WriteSome();
    }

    /** All that is left to do is to write, and the code does not wait for the network to become writable. */
    ghost predicate MayIdle()
      reads this
    {
      header == |fields| && document == None && len > 0
    }

    /**
     One pass of the loop of flush_data, of which `sendRequired` is the state. A pass that goes on brings the message
     forward, by the measure of its bytes, unread bytes and headers; or it is idle and changes nothing, and that is
     exactly when there is only the buffer left to write, the write blocks, and nothing has called for it.
     */
    method Pass(sendRequired: bool) returns (required: bool, goesOn: bool, idle: bool)
      requires sending && Valid() && (sendRequired ==> len > 0) && failure == NoFailure
      modifies this`len, this`header, this`position, this`chunkData, this`cuts, this`wire
      modifies this`sending, this`completed, this`stalled, this`calls, this`failure, buffer
      ensures Valid() && old(wire) <= wire && (goesOn && required ==> len > 0)
      ensures goesOn ==> sending
      ensures (!goesOn && sending) || idle ==> stalled && calls > old(calls)
      ensures calls >= old(calls)
      ensures if sending then failure == NoFailure else Ended()
      ensures idle <==> goesOn && !sendRequired && old(MayIdle()) && stalled
      ensures idle ==>
        && required == sendRequired && len == old(len) && wire == old(wire) && header == old(header)
        && position == old(position) && chunkData == old(chunkData) && cuts == old(cuts)
        && Unsent() == old(Unsent()) && Unread() == old(Unread())
      ensures header <= |fields|
      ensures goesOn && !idle ==>
        || Unsent() < old(Unsent())
        || (Unsent() == old(Unsent()) && Unread() < old(Unread()))
        || (Unsent() == old(Unsent()) && Unread() == old(Unread()) && |fields| - header < old(|fields| - header))
    {
      hide Valid, HeadPending, AllSent, Unsent, Pieces, Flatten, WantsChunks, Head;
      HeaderInRange();
      required := sendRequired;
      var queueing := !required && header != |fields|;
      if queueing {
        PendingIfValid();
        required := QueueHeaders();
      }
      if !required && document.Some? {
        var ended;
        required, ended := QueueDocument();
        if ended.Some? {
          DoComplete(ended.value);
          return required, false, false;
        }
      }
      if len == 0 {
        if document == None {
          NothingLeft();
          DoComplete(NoError);
        }
        return required, false, false;
      }
      var result := WriteBuffer();
      match result {
        case Success =>
          return false, true, false;
        case Blocked =>
          return required, !required, !required && !queueing && document == None;
        case Failed(code) =>
          DoComplete(CloseError(code));
          return required, false, false;
      }
    }

    /**
     Alternately queues and writes until the network or the document blocks, or the message ends. Whatever the
     network takes and the document yields, the bytes on the wire stay a prefix of the message, success is reported
     only when all of it is there, and while the message goes on the call returns only because something blocks.

     With a document it always returns. Without one it returns unless the network keeps blocking idle passes: the
     model gives up after `patience` of them.
     */
    method FlushData(patience: nat) returns (gaveUp: bool)
      requires sending && Valid() && failure == NoFailure
      modifies this`len, this`header, this`position, this`chunkData, this`cuts, this`wire
      modifies this`sending, this`completed, this`stalled, this`calls, this`failure, buffer
      ensures Valid() && old(wire) <= wire
      ensures if sending then stalled && calls > old(calls) && failure == NoFailure else Ended()
      ensures gaveUp ==> sending && MayIdle()
      ensures document.Some? ==> !gaveUp
    {
      hide Valid, HeadPending, AllSent, Unsent, Pieces, Flatten, WantsChunks, Head;
      var sendRequired := len >= BUFFER_SIZE;
      var idlePasses := 0;
      while true
        invariant sending && Valid() && old(wire) <= wire && failure == NoFailure
        invariant sendRequired ==> len > 0
        invariant idlePasses <= patience && calls >= old(calls)
        decreases Unsent(), Unread(), |fields| - header, patience - idlePasses
      {
        var goesOn, idle;
        sendRequired, goesOn, idle := Pass(sendRequired);
        if !goesOn {
          return false;
        }
        if idle {
          if idlePasses == patience {
            return true;
          }
          idlePasses := idlePasses + 1;
        }
      }
    }

    /** The leader and the end of its line, in the empty buffer. */
    method QueueLeader()
      requires buffer.Length == BUFFER_SIZE
      modifies this`len, buffer
      ensures len <= BUFFER_SIZE && buffer[..len] == LeaderPart(leader)
    {
      hide Clip;
      var line := Clip(leader, BUFFER_SIZE);
      Put(0, line);
      assert buffer[..|line|] == line;
      len := |line|;
      var end := Clip(CRLF, BUFFER_SIZE - len);
      Put(len, end);
      len := len + |end|;
    }

    method Restart(leader: string, fields: seq<Field>, document: Option<string>)
      modifies this
      ensures this.leader == leader && this.fields == fields && this.document == document
      ensures sending && header == 0 && position == 0 && chunkData == WantsChunks(fields)
      ensures wire == "" && cuts == [] && failure == NoFailure && calls == old(calls)
    {
      hide WantsChunks;
      this.leader, this.fields, this.document, position, header := leader, fields, document, 0, 0;
      sending, wire, cuts, failure := true, "", [], NoFailure;
      chunkData := WantsChunks(fields);
    }

    /** send(), up to the leader. */
    method Begin(leader: string, fields: seq<Field>, document: Option<string>)
      requires !sending && buffer.Length == BUFFER_SIZE
      modifies this, buffer
      ensures this.leader == leader && this.fields == fields && this.document == document && header == 0
      ensures HeadPending() && sending && wire == "" && failure == NoFailure && calls == old(calls)
    {
      hide Head, LeaderPart, FormatFields, WantsChunks, Pieces, FieldBytes, Flatten, Clip;
      Restart(leader, fields, document);
      QueueLeader();
      NothingYet(LeaderPart(leader), buffer[..len], fields);
      assert document.Some? ==> document.value[..0] == "";
    }

    lemma PendingIsValid()
      requires HeadPending() && header < |fields|
      ensures Valid()
    {
    }

    /** send(), before the call of flush_data. */
    method Prepare(leader: string, fields: seq<Field>, document: Option<string>)
      requires !sending && buffer.Length == BUFFER_SIZE
      modifies this, buffer
      ensures this.leader == leader && this.fields == fields && this.document == document
      ensures Valid() && sending && wire == "" && failure == NoFailure && calls == old(calls)
    {
      hide Valid, HeadPending, Unsent;
      Begin(leader, fields, document);
      if header == |fields| {
        var sendRequired := QueueHeaders();
      } else {
        PendingIsValid();
      }
    }

    /** send(), on a connected stream. */
    method Send(leader: string, fields: seq<Field>, document: Option<string>, patience: nat) returns (gaveUp: bool)
      requires !sending && buffer.Length == BUFFER_SIZE
      modifies this, buffer
      ensures this.leader == leader && this.fields == fields && this.document == document
      ensures Valid() && if sending then stalled && calls > old(calls) && failure == NoFailure else Ended()
      ensures !sending && completed == Some(NoError) ==>
        wire == match document
          case None => Head(leader, fields)
          case Some(content) =>
            Head(leader, fields) + if SaysChunked(fields) then Chunks(cuts) + "0\r\n\r\n" else content
      ensures !sending && completed == Some(NoError) && document.Some? ==>
        Flatten(cuts) == document.value && forall cut :: cut in cuts ==> 0 < |cut| <= BUFFER_SIZE
      ensures gaveUp ==> sending && MayIdle()
      ensures document.Some? ==> !gaveUp
    {
      hide Valid, AllSent;
      Prepare(leader, fields, document);
      gaveUp := FlushData(patience);
      if completed == Some(NoError) && AllSent() {
        AllSentIs();
      }
    }
  }

  lemma NothingYet(leader: string, queued: string, fields: seq<Field>)
    requires queued == leader
    ensures "" + queued == leader + FormatFields(fields[..0]) && Flatten([]) == ""
  {
  }

  /** Bytes move from the front of the buffer to the wire. */
  lemma Rest(wire: string, bytes: string, n: nat)
    requires n <= |bytes|
    ensures (wire + bytes[..n]) + bytes[n..] == wire + bytes
  {
  }

  lemma QueuedPiece(wire: string, queued: string, head: string, body: string, piece: string)
    requires wire + queued == head + (body + "")
    ensures wire + (queued + piece) == head + ((body + piece) + "")
    ensures wire + (queued + piece) == head + (body + piece)
  {
    assert (wire + queued) + piece == wire + (queued + piece);
    assert body + "" == body && (body + piece) + "" == body + piece;
    assert (head + body) + piece == head + (body + piece);
  }

  lemma HeadDone(leader: string, fields: seq<Field>, wire: string, queued: string, line: string)
    requires |queued| < BUFFER_SIZE && line == Clip(CRLF, BUFFER_SIZE - |queued|)
    requires wire + queued == LeaderPart(leader) + FormatFields(fields)
    requires if fields == [] then wire == "" else |queued| < BUFFER_SIZE - 3
    ensures wire + (queued + line) == Head(leader, fields) + ""
    ensures Pieces(WantsChunks(fields), []) == "" && FieldBytes([]) == 0
  {
    assert LeaderPart(leader) + "" == LeaderPart(leader);
    assert wire + (queued + line) == (wire + queued) + line;
  }

  lemma SameSlice(s: string, t: string, i: nat, j: nat, k: nat)
    requires |s| == |t| && i <= j <= k <= |s| && s[i..] == t[i..]
    ensures s[j..k] == t[j..k]
  {
    var u, v := s[i..], t[i..];
    forall m | j <= m < k ensures s[m] == t[m] {
      assert s[m] == u[m - i] && t[m] == v[m - i];
    }
  }

  lemma Framed(queued: string, hex: string, data: string)
    ensures ((queued + hex) + CRLF + data) + CRLF == queued + (hex + CRLF + data + CRLF)
  {
  }

  /** The next header is queued whole; or it is too long for an empty buffer, and left out. */
  lemma FieldQueued(leader: string, fields: seq<Field>, k: nat, wire: string, queued: string, line: string)
    requires k < |fields| && |queued| < BUFFER_SIZE && line == Clip(FormatField(fields[k]), BUFFER_SIZE - |queued|)
    requires wire + queued == leader + FormatFields(fields[..k])
    ensures |queued| + |line| < BUFFER_SIZE - 3 ==> wire + (queued + line) == leader + FormatFields(fields[..k + 1])
    ensures |queued| + |line| >= BUFFER_SIZE - 3 && queued == "" ==>
      wire + queued == leader + FormatFields(fields[..k + 1])
    ensures |line| + FieldBytes(fields[k + 1..]) <= FieldBytes(fields[k..])
  {
    hide FormatField, FormatFields, FieldBytes;
    NextField(fields, k);
    var before := FormatFields(fields[..k]);
    Associative(wire, queued, line);
    Associative(leader, before, line);
    assert before + "" == before;
  }

  lemma Associative(a: string, b: string, c: string)
    ensures a + (b + c) == (a + b) + c
  {
  }

  lemma NextField(fields: seq<Field>, k: nat)
    requires k < |fields|
    ensures FormatFields(fields[..k + 1])
         == FormatFields(fields[..k]) + if Fits(fields[k]) then FormatField(fields[k]) else ""
    ensures FieldBytes(fields[k..]) == |FormatField(fields[k])| + FieldBytes(fields[k + 1..])
  {
    assert fields[..k + 1][..k] == fields[..k];
    assert fields[k..][1..] == fields[k + 1..];
  }

  /** Bytes of the headers, also of those that will be discarded. */
  ghost function FieldBytes(fields: seq<Field>): nat {
    if fields == [] then 0 else |FormatField(fields[0])| + FieldBytes(fields[1..])
  }
}
