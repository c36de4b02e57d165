/** The tap on the client's byte stream as the class the session installs (src/psql_proxy/handler.cpp), and
    what it does over any number of calls. */
module Handlers {
  import opened Common
  import opened Endianness
  import opened Messages
  import opened Frames

  datatype HandlerState = HandlerState(buffer: seq<Byte>, handled: bool)

  /** The outcome of one or more calls: the state left behind, the calls made to the logger and the bus, and
      whether any call ended with an exception. */
  datatype Handled = Handled(state: HandlerState, effects: seq<Effect>, threw: bool)

  const FRESH := HandlerState([], false)

  /** One successful read handed to the handler. A frame whose constructor throws stays in a retained buffer;
      without one it is lost together with the rest of the chunk. */
  function HandleChunk(st: HandlerState, chunk: seq<Byte>): Handled {
    var p := Parse(st.handled, st.buffer + chunk);
    Handled(HandlerState(if p.threw && st.buffer == [] then [] else p.rest, p.handled), p.effects, p.threw)
  }

  /** One frame of the parse, spelled out on offsets. */
  lemma ParseAt(handled: bool, s: seq<Byte>)
    ensures var head := if handled then 1 else 0;
            if |s| < head + 4 then Parse(handled, s) == Parsed([], s, handled, false)
            else
              var order := CheckEndiannessByUint32(s[head..head + 4]);
              var length := DecodeUint32(s[head..head + 4], order);
              if length < 4 || |s| < head + length then Parse(handled, s) == Parsed([], s, handled, false)
              else
                var code := if handled then s[0] else STARTUP_CODE;
                var made := MakeMessage(code, s[head + 4..head + length], order);
                if made.Threw? then Parse(handled, s) == Parsed([], s, handled, true)
                else
                  var tail := Parse(true, s[head + length..]);
                  Parse(handled, s) == tail.(effects := Visit(made.message) + tail.effects)
  {
    hide MakeMessage, CheckEndiannessByUint32, DecodeUint32, Visit;
  }

  /** The same at an offset into a chunk. */
  lemma ParseFrom(handled: bool, chunk: seq<Byte>, from: nat)
    requires from <= |chunk|
    ensures var s, start := chunk[from..], if handled then from + 1 else from;
            if |chunk| - start < 4 then Parse(handled, s) == Parsed([], s, handled, false)
            else
              var order := CheckEndiannessByUint32(chunk[start..start + 4]);
              var length := DecodeUint32(chunk[start..start + 4], order);
              if length < 4 || |chunk| - start < length then Parse(handled, s) == Parsed([], s, handled, false)
              else
                var code := if handled then chunk[from] else STARTUP_CODE;
                var made := MakeMessage(code, chunk[start + 4..start + length], order);
                if made.Threw? then Parse(handled, s) == Parsed([], s, handled, true)
                else
                  var tail := Parse(true, chunk[start + length..]);
                  Parse(handled, s) == tail.(effects := Visit(made.message) + tail.effects)
  {
    hide Parse, MakeMessage, CheckEndiannessByUint32, DecodeUint32, Visit;
    var s, head := chunk[from..], if handled then 1 else 0;
    ParseAt(handled, s);
    if |s| >= head + 4 {
      assert s[head..head + 4] == chunk[from + head..from + head + 4];
      var length := DecodeUint32(s[head..head + 4], CheckEndiannessByUint32(s[head..head + 4]));
      if 4 <= length && head + length <= |s| {
        assert s[head + 4..head + length] == chunk[from + head + 4..from + head + length];
        assert s[head + length..] == chunk[from + head + length..];
      }
    }
  }

  /** Parsing resumes with `p` after `effects`, and the two make up `whole`. */
  ghost predicate Resumes(whole: Parsed, effects: seq<Effect>, p: Parsed) {
    whole == p.(effects := effects + p.effects)
  }

  lemma ResumesAtStart(whole: Parsed)
    ensures Resumes(whole, [], whole)
  {
    assert [] + whole.effects == whole.effects;
  }

  lemma ResumesAfter(whole: Parsed, effects: seq<Effect>, p: Parsed, visited: seq<Effect>, tail: Parsed)
    requires Resumes(whole, effects, p) && p == tail.(effects := visited + tail.effects)
    ensures Resumes(whole, effects + visited, tail)
  {
    assert effects + (visited + tail.effects) == effects + visited + tail.effects;
  }

  lemma ResumesAtEnd(whole: Parsed, effects: seq<Effect>, p: Parsed)
    requires Resumes(whole, effects, p) && p.effects == []
    ensures whole == p.(effects := effects)
  {
  }

  class Handler {
    var buffer: seq<Byte>
    var firstMsgHandled: bool

    ghost function State(): HandlerState
      reads this
    {
      HandlerState(buffer, firstMsgHandled)
    }

    constructor ()
      ensures State() == FRESH
    {
      buffer := [];
      firstMsgHandled := false;
    }

    /** The call operator: errors are ignored, bytes are parsed as far as they go. */
    method Call(result: ReadResult) returns (effects: seq<Effect>, threw: bool)
      modifies this
      ensures result.ReadError? ==> State() == old(State()) && effects == [] && !threw
      ensures result.ReadOk? ==> Handled(State(), effects, threw) == HandleChunk(old(State()), result.bytes)
      ensures result.ReadOk? && !threw ==> !ScanFrame(firstMsgHandled, buffer).Frame?
    {
      effects, threw := [], false;
      if result.ReadOk? {
        hide ScanFrame;
        if !Parse(firstMsgHandled, buffer + result.bytes).threw {
          RestIsIncomplete(firstMsgHandled, buffer + result.bytes);
        }
        if buffer == [] {
          assert buffer + result.bytes == result.bytes;
          effects, threw := CallInPlace(result.bytes);
        } else {
          effects, threw := CallBuffered(result.bytes);
        }
      }
    }

    /** The loop that parses a chunk where it lies and copies only what is left over. */
    method CallInPlace(chunk: seq<Byte>) returns (effects: seq<Effect>, threw: bool)
      requires buffer == []
      modifies this
      ensures var p := Parse(old(firstMsgHandled), chunk);
              && effects == p.effects && threw == p.threw && firstMsgHandled == p.handled
              && buffer == if threw then [] else p.rest
    {
      hide Parse, MakeMessage, Visit, DecodeUint32, CheckEndiannessByUint32, Resumes;
      effects, threw := [], false;
      var posOrig, pos, end := 0, 0, |chunk|;
      ghost var whole, p := Parse(firstMsgHandled, chunk), Parse(firstMsgHandled, chunk);
      ResumesAtStart(whole);
      assert chunk[0..] == chunk;
      while 0 < end - pos
        invariant posOrig == pos <= end && buffer == []
        invariant p == Parse(firstMsgHandled, chunk[posOrig..]) && Resumes(whole, effects, p)
        decreases end - pos
      {
        ParseFrom(firstMsgHandled, chunk, posOrig);
        var msgCode: Byte := STARTUP_CODE;
        if firstMsgHandled {
          msgCode := chunk[pos];
          pos := pos + 1;
        }
        if end - pos < 4 {
          ResumesAtEnd(whole, effects, p);
          buffer := chunk[posOrig..];
          return;
        }
        var lengthBytes := chunk[pos..pos + 4];
        var order := CheckEndiannessByUint32(lengthBytes);
        var lengthWithLength := DecodeUint32(lengthBytes, order);
        if lengthWithLength < 4 {
          ResumesAtEnd(whole, effects, p);
          buffer := chunk[posOrig..];
          return;
        }
        var payloadLength := lengthWithLength - 4;
        pos := pos + 4;
        if end - pos < payloadLength {
          ResumesAtEnd(whole, effects, p);
          buffer := chunk[posOrig..];
          return;
        }
        var msg := MakeMessage(msgCode, chunk[pos..pos + payloadLength], order);
        if msg.Threw? {
          ResumesAtEnd(whole, effects, p);
          threw := true;
          return;
        }
        pos := pos + payloadLength;
        ResumesAfter(whole, effects, p, Visit(msg.message), Parse(true, chunk[pos..]));
        p := Parse(true, chunk[pos..]);
        firstMsgHandled := true;
        posOrig := pos;
        effects := effects + Visit(msg.message);
      }
      ParseFrom(firstMsgHandled, chunk, posOrig);
      ResumesAtEnd(whole, effects, p);
    }

    /** The loop over a retained buffer. */
    method CallBuffered(chunk: seq<Byte>) returns (effects: seq<Effect>, threw: bool)
      requires buffer != []
      modifies this
      ensures var p := Parse(old(firstMsgHandled), old(buffer) + chunk);
              && effects == p.effects && threw == p.threw && firstMsgHandled == p.handled && buffer == p.rest
    {
      hide Parse, MakeMessage, Visit, DecodeUint32, CheckEndiannessByUint32, Resumes;
      effects, threw := [], false;
      buffer := buffer + chunk;
      ghost var whole := Parse(firstMsgHandled, buffer);
      ResumesAtStart(whole);
      var doContinue := true;
      while doContinue
        invariant Resumes(whole, effects, Parse(firstMsgHandled, buffer))
        invariant !doContinue ==> buffer == []
        decreases |buffer|, doContinue
      {
        doContinue := false;
        ParseAt(firstMsgHandled, buffer);
        var end := |buffer|;
        if end == 0 {
          break;
        }
        var pos := 0;
        var msgCode: Byte := STARTUP_CODE;
        if firstMsgHandled {
          msgCode := buffer[pos];
          pos := pos + 1;
        }
        if end - pos < 4 {
          break;
        }
        var lengthBytes := buffer[pos..pos + 4];
        var order := CheckEndiannessByUint32(lengthBytes);
        var lengthWithLength := DecodeUint32(lengthBytes, order);
        if lengthWithLength < 4 {
          break;
        }
        var payloadLength := lengthWithLength - 4;
        pos := pos + 4;
        if end - pos < payloadLength {
          break;
        }
        var msg := MakeMessage(msgCode, buffer[pos..pos + payloadLength], order);
        if msg.Threw? {
          ResumesAtEnd(whole, effects, Parse(firstMsgHandled, buffer));
          threw := true;
          return;
        }
        pos := pos + payloadLength;
        ResumesAfter(whole, effects, Parse(firstMsgHandled, buffer), Visit(msg.message), Parse(true, buffer[pos..]));
        firstMsgHandled := true;
        if end - pos > 0 {
          buffer := buffer[pos..];
          doContinue := true;
        } else {
          assert buffer[pos..] == [];
          buffer := [];
        }
        effects := effects + Visit(msg.message);
      }
      ParseAt(firstMsgHandled, buffer);
      ResumesAtEnd(whole, effects, Parse(firstMsgHandled, buffer));
    }
  }

  // ---------------------------------------------------------------- any number of calls

  /** The handler called on one chunk after the other; an exception is caught outside it and the calls go on. */
  function HandleAll(st: HandlerState, chunks: seq<seq<Byte>>): Handled
    decreases |chunks|
  {
    if chunks == [] then Handled(st, [], false)
    else
      var first := HandleChunk(st, chunks[0]);
      var rest := HandleAll(first.state, chunks[1..]);
      Handled(rest.state, first.effects + rest.effects, first.threw || rest.threw)
  }

  lemma {:induction false} HandleAllSnoc(st: HandlerState, chunks: seq<seq<Byte>>, chunk: seq<Byte>)
    ensures var before := HandleAll(st, chunks);
            var last := HandleChunk(before.state, chunk);
            HandleAll(st, chunks + [chunk]) ==
            Handled(last.state, before.effects + last.effects, before.threw || last.threw)
    decreases |chunks|
  {
    hide HandleChunk;
    if chunks == [] {
      var one: seq<seq<Byte>> := [chunk];
      assert chunks + one == one && one[1..] == [];
      var last := HandleChunk(st, chunk);
      assert last.effects + [] == [] + last.effects;
    } else {
      var first := HandleChunk(st, chunks[0]);
      assert (chunks + [chunk])[1..] == chunks[1..] + [chunk];
      HandleAllSnoc(first.state, chunks[1..], chunk);
      var rest := HandleAll(first.state, chunks[1..]);
      var last := HandleChunk(rest.state, chunk);
      assert first.effects + (rest.effects + last.effects) == first.effects + rest.effects + last.effects;
    }
  }

  /** The handler's outcome on a stream it is handed in one piece and parses without a throw. */
  function FromParse(p: Parsed): Handled {
    Handled(HandlerState(p.rest, p.handled), p.effects, p.threw)
  }

  predicate Settled(st: HandlerState) {
    !ScanFrame(st.handled, st.buffer).Frame?
  }

  lemma {:induction false} HandleAllParses(st: HandlerState, chunks: seq<seq<Byte>>)
    requires Settled(st) && !Parse(st.handled, st.buffer + Flatten(chunks)).threw
    ensures HandleAll(st, chunks) == FromParse(Parse(st.handled, st.buffer + Flatten(chunks)))
    decreases |chunks|
  {
    hide ScanFrame, MakeMessage;
    if chunks == [] {
      assert st.buffer + Flatten(chunks) == st.buffer;
    } else {
      var rest := Flatten(chunks[1..]);
      assert st.buffer + Flatten(chunks) == st.buffer + chunks[0] + rest;
      ParseMore(st.handled, st.buffer + chunks[0], rest);
      RestIsIncomplete(st.handled, st.buffer + chunks[0]);
      HandleAllParses(HandleChunk(st, chunks[0]).state, chunks[1..]);
    }
  }

  /** The stream holds a frame at `k`, after complete frames that parse, whose constructor turns it down. */
  predicate RejectedAt(handled: bool, s: seq<Byte>, k: nat)
    requires k <= |s|
  {
    var before := Parse(handled, s[..k]);
    var frame := ScanFrame(before.handled, s[k..]);
    && !before.threw && before.rest == []
    && frame.Frame? && Rejects(frame.code, frame.payload)
  }

  /** What the constructors throw on: a start-up payload too short for the version, and an empty query. */
  predicate Rejects(code: Byte, payload: seq<Byte>) {
    (code == STARTUP_CODE && |payload| < 4) || (code == QUERY_CODE && payload == [])
  }

  lemma RejectsExactly(code: Byte, payload: seq<Byte>, order: Order)
    ensures MakeMessage(code, payload, order).Threw? <==> Rejects(code, payload)
  {
  }

  /** Parsing a stream throws exactly if one of its frames is rejected. */
  lemma ThrowsExactly(handled: bool, s: seq<Byte>)
    ensures Parse(handled, s).threw <==> exists k: nat | k <= |s| :: RejectedAt(handled, s, k)
  {
    hide Parse, ScanFrame, MakeMessage, Rejects;
    if Parse(handled, s).threw {
      var p := Parse(handled, s);
      var k := |s| - |p.rest|;
      RestStartsFrame(handled, s);
      ThrownAgain(handled, s);
      var frame := ScanFrame(p.handled, p.rest);
      RejectsExactly(frame.code, frame.payload, frame.order);
      assert RejectedAt(handled, s, k);
    }
    forall k: nat | k <= |s| && RejectedAt(handled, s, k)
      ensures Parse(handled, s).threw
    {
      RejectedThrows(handled, s, k);
    }
  }

  lemma RejectedThrows(handled: bool, s: seq<Byte>, k: nat)
    requires k <= |s| && RejectedAt(handled, s, k)
    ensures Parse(handled, s).threw
  {
    hide ScanFrame, MakeMessage, Rejects;
    var frame := ScanFrame(Parse(handled, s[..k]).handled, s[k..]);
    ParseMore(handled, s[..k], s[k..]);
    assert s[..k] + s[k..] == s && [] + s[k..] == s[k..];
    RejectsExactly(frame.code, frame.payload, frame.order);
  }

  /** How a stream is cut into chunks matters to the handler exactly if one of its frames is rejected: a
      start-up frame with fewer than four bytes of payload, or a query without its terminator. */
  lemma SplitInvariantExactly(s: seq<Byte>)
    ensures (exists k: nat | k <= |s| :: RejectedAt(false, s, k)) <==>
            exists a: seq<seq<Byte>>, b: seq<seq<Byte>> ::
              Flatten(a) == s && Flatten(b) == s && HandleAll(FRESH, a) != HandleAll(FRESH, b)
  {
    hide Parse, RejectedAt, HandleAll;
    ThrowsExactly(false, s);
    if Parse(false, s).threw {
      ThrowDependsOnSplit(s);
    } else {
      forall a: seq<seq<Byte>> | Flatten(a) == s
        ensures HandleAll(FRESH, a) == FromParse(Parse(false, s))
      {
        assert [] + Flatten(a) == s;
        ScannedLength(false, []);
        HandleAllParses(FRESH, a);
      }
    }
  }

  /** There are such streams: one that starts with an empty start-up frame, and any well-formed one in which a
      query comes with no payload at all. */
  lemma ShortFramesAreRejected(startup: Wire, ws: seq<Wire>, after: seq<Byte>)
    requires startup.code == STARTUP_CODE && Recoverable(startup) && AllRecoverable(ws)
    ensures RejectedAt(false, [0, 0, 0, 4] + after, 0)
    ensures var front := Print(startup, false) + PrintAll(ws);
            RejectedAt(false, front + [QUERY_CODE, 0, 0, 0, 4] + after, |front|)
  {
    hide Print, PrintAll, MakeMessage, Carried, ScanFrame, RejectedAt;
    var s: seq<Byte> := [0, 0, 0, 4];
    BareHeader(STARTUP_CODE, false, after);
    ScannedLength(false, []);
    assert [] + s + after == s + after && [] + (s + after) == s + after;
    RejectedAfter(false, [], s + after);
    var front, query: seq<Byte> := Print(startup, false) + PrintAll(ws), [QUERY_CODE, 0, 0, 0, 4];
    PrintParse(startup, ws);
    BareHeader(QUERY_CODE, true, after);
    assert [QUERY_CODE] + s + after == query + after;
    RejectedAfter(false, front, query + after);
    assert front + (query + after) == front + query + after;
  }

  /** A frame that consists of its header only. */
  lemma BareHeader(code: Byte, handled: bool, after: seq<Byte>)
    requires handled || code == STARTUP_CODE
    ensures var frame := ScanFrame(handled, (if handled then [code] else []) + [0, 0, 0, 4] + after);
            frame.Frame? && frame.code == code && frame.payload == []
  {
    var head, s := if handled then 1 else 0, (if handled then [code] else []) + [0, 0, 0, 4] + after;
    assert s[head..head + 4] == [0, 0, 0, 4];
  }

  lemma RejectedAfter(handled: bool, front: seq<Byte>, s: seq<Byte>)
    requires var p := Parse(handled, front);
             && !p.threw && p.rest == []
             && var frame := ScanFrame(p.handled, s); frame.Frame? && Rejects(frame.code, frame.payload)
    ensures RejectedAt(handled, front + s, |front|)
  {
    assert (front + s)[..|front|] == front && (front + s)[|front|..] == s;
  }

  /** Cut one byte into a frame that makes a constructor throw, the handler keeps it for good; uncut, it drops
      it and whatever follows. */
  lemma ThrowDependsOnSplit(s: seq<Byte>)
    requires Parse(false, s).threw
    ensures exists a: seq<seq<Byte>>, b: seq<seq<Byte>> ::
              && Flatten(a) == s && Flatten(b) == s
              && HandleAll(FRESH, a).state.buffer != HandleAll(FRESH, b).state.buffer
  {
    hide Parse, HandleChunk;
    RestStartsFrame(false, s);
    ThrowHasFrame(false, s);
    var p := Parse(false, s);
    var k := |s| - |p.rest|;
    CutFrameIsKept(s, k);
    HandleTwo(s[..k + 1], s[k + 1..]);
    HandleOne(FRESH, s);
    assert s[..k + 1] + s[k + 1..] == s;
    assert Flatten([s]) != [] && HandleAll(FRESH, [s]).state.buffer == [] by {
      WholeFrameIsDropped(s);
    }
  }

  lemma HandleOne(st: HandlerState, a: seq<Byte>)
    ensures Flatten([a]) == a && HandleAll(st, [a]).state == HandleChunk(st, a).state
  {
    hide HandleChunk;
    var one: seq<seq<Byte>> := [a];
    assert one[1..] == [];
  }

  lemma HandleTwo(a: seq<Byte>, b: seq<Byte>)
    ensures Flatten([a, b]) == a + b
    ensures HandleAll(FRESH, [a, b]).state == HandleChunk(HandleChunk(FRESH, a).state, b).state
  {
    hide HandleChunk;
    HandleOne(HandleChunk(FRESH, a).state, b);
    var two: seq<seq<Byte>> := [a, b];
    assert two[1..] == [b];
  }

  lemma WholeFrameIsDropped(s: seq<Byte>)
    requires Parse(false, s).threw
    ensures HandleChunk(FRESH, s).state.buffer == []
  {
    hide Parse;
    assert [] + s == s;
  }

  lemma CutFrameIsKept(s: seq<Byte>, k: nat)
    requires Parse(false, s).threw && k == |s| - |Parse(false, s).rest| && k < |s|
    ensures HandleChunk(HandleChunk(FRESH, s[..k + 1]).state, s[k + 1..]).state.buffer == Parse(false, s).rest
    ensures Parse(false, s).rest != []
  {
    hide Parse, HandleChunk;
    var p := Parse(false, s);
    RestStartsFrame(false, s);
    ThrownAgain(false, s);
    OneByteIsKept(s[..k], s[k], p.effects, p.handled);
    assert s[..k + 1] == s[..k] + [s[k]];
    assert [s[k]] + s[k + 1..] == s[k..];
    BufferedThrowIsKept(HandlerState([s[k]], p.handled), s[k + 1..]);
  }

  lemma OneByteIsKept(front: seq<Byte>, x: Byte, effects: seq<Effect>, handled: bool)
    requires Parse(false, front) == Parsed(effects, [], handled, false)
    ensures HandleChunk(FRESH, front + [x]).state == HandlerState([x], handled)
  {
    hide Parse;
    ParseMore(false, front, [x]);
    ParseAt(handled, [x]);
    assert [] + [x] == [x] && [] + (front + [x]) == front + [x];
  }

  lemma BufferedThrowIsKept(st: HandlerState, chunk: seq<Byte>)
    requires st.buffer != []
    requires Parse(st.handled, st.buffer + chunk) == Parsed([], st.buffer + chunk, st.handled, true)
    ensures HandleChunk(st, chunk).state.buffer == st.buffer + chunk
  {
    hide Parse;
  }

  lemma {:induction false} ThrowHasFrame(handled: bool, s: seq<Byte>)
    requires Parse(handled, s).threw
    ensures |Parse(handled, s).rest| >= 4
    decreases |s|
  {
    var frame := ScanFrame(handled, s);
    if MakeMessage(frame.code, frame.payload, frame.order).Made? {
      ThrowHasFrame(true, s[frame.length..]);
    }
  }

  lemma {:induction false} ThrownAgain(handled: bool, s: seq<Byte>)
    requires Parse(handled, s).threw
    ensures var p := Parse(handled, s);
            && Parse(p.handled, p.rest) == Parsed([], p.rest, p.handled, true)
            && var frame := ScanFrame(p.handled, p.rest);
            frame.Frame? && MakeMessage(frame.code, frame.payload, frame.order).Threw?
    decreases |s|
  {
    hide MakeMessage;
    var frame := ScanFrame(handled, s);
    if MakeMessage(frame.code, frame.payload, frame.order).Made? {
      ThrownAgain(true, s[frame.length..]);
    }
  }

  /** A rejected frame that has been retained silences the tap for good: whatever arrives afterwards, nothing is
      logged any more and no end of the session reported, each call ends with an exception, and everything that
      arrives is retained. */
  lemma {:induction false} RejectedFrameSilences(st: HandlerState, chunks: seq<seq<Byte>>)
    requires RejectedAt(st.handled, st.buffer, 0)
    ensures HandleAll(st, chunks) ==
            Handled(HandlerState(st.buffer + Flatten(chunks), st.handled), [], chunks != [])
    decreases |chunks|
  {
    hide Parse, RejectedAt;
    if chunks == [] {
      assert st.buffer + Flatten(chunks) == st.buffer;
    } else {
      RejectedHead(st.handled, st.buffer, chunks[0]);
      ParseMore(st.handled, st.buffer, chunks[0]);
      var next := HandleChunk(st, chunks[0]).state;
      assert next == HandlerState(st.buffer + chunks[0], st.handled);
      RejectedFrameSilences(next, chunks[1..]);
      assert st.buffer + chunks[0] + Flatten(chunks[1..]) == st.buffer + Flatten(chunks);
    }
  }

  /** The retained bytes begin with a frame whose length does not even cover itself. */
  predicate Stalled(st: HandlerState) {
    var head := if st.handled then 1 else 0;
    |st.buffer| >= head + 4 && GuessedUint32(st.buffer[head..head + 4]) < 4
  }

  /** That silences the tap as well, without an exception: nothing that follows is looked at. */
  lemma {:induction false} BadLengthSilences(st: HandlerState, chunks: seq<seq<Byte>>)
    requires Stalled(st)
    ensures HandleAll(st, chunks) == Handled(HandlerState(st.buffer + Flatten(chunks), st.handled), [], false)
    decreases |chunks|
  {
    hide HandleChunk, Stalled;
    if chunks == [] {
      assert st.buffer + Flatten(chunks) == st.buffer;
    } else {
      var s := st.buffer + chunks[0];
      StaysStalled(st, chunks[0]);
      BadLengthSilences(HandlerState(s, st.handled), chunks[1..]);
      assert s + Flatten(chunks[1..]) == st.buffer + Flatten(chunks);
      assert [] + HandleAll(HandlerState(s, st.handled), chunks[1..]).effects == [];
    }
  }

  lemma StaysStalled(st: HandlerState, chunk: seq<Byte>)
    requires Stalled(st)
    ensures var next := HandlerState(st.buffer + chunk, st.handled);
            Stalled(next) && HandleChunk(st, chunk) == Handled(next, [], false)
  {
    hide GuessedUint32, MakeMessage, Visit, CheckEndiannessByUint32;
    var head := if st.handled then 1 else 0;
    var length := st.buffer[head..head + 4];
    assert (st.buffer + chunk)[head..head + 4] == length;
    ParseStep(st.handled, st.buffer + chunk);
  }

  lemma RejectedHead(handled: bool, s: seq<Byte>, more: seq<Byte>)
    requires RejectedAt(handled, s, 0)
    ensures s != [] && Parse(handled, s) == Parsed([], s, handled, true) && RejectedAt(handled, s + more, 0)
  {
    hide ScanFrame, MakeMessage, Rejects;
    ScannedLength(handled, []);
    assert s[..0] == (s + more)[..0] == [] && s[0..] == s && (s + more)[0..] == s + more;
    var frame := ScanFrame(handled, s);
    ScannedLength(handled, s);
    ScanMore(handled, s, more);
    RejectsExactly(frame.code, frame.payload, frame.order);
  }

  /** A start-up frame and any frames after it, cut into any chunks whatever, make the handler log exactly the
      query texts and report exactly the session ends, in order, with nothing retained. */
  lemma EveryCutRoundTrips(startup: Wire, ws: seq<Wire>, chunks: seq<seq<Byte>>)
    requires startup.code == STARTUP_CODE && Recoverable(startup) && AllRecoverable(ws)
    requires Flatten(chunks) == Print(startup, false) + PrintAll(ws)
    ensures HandleAll(FRESH, chunks) == Handled(HandlerState([], true), Carried(ws), false)
  {
    hide ScanFrame, MakeMessage, Print, Recoverable;
    PrintParse(startup, ws);
    ScannedLength(false, []);
    assert [] + Flatten(chunks) == Flatten(chunks);
    HandleAllParses(FRESH, chunks);
  }

  /** The lengths a client sends in practice are all covered: below 65536 in either byte order. */
  lemma ShortFramesRecoverable(w: Wire)
    requires |w.payload| + 4 < 0x1_0000
    ensures Recoverable(w) <==> !Rejects(w.code, w.payload)
  {
    GuessExactly(|w.payload| + 4, BE);
    ShortLengthsSurvive(|w.payload| + 4, BE);
  }
}
