/** The stream grammar behind src/psql_proxy/handler.cpp: frames, the recursive parser that both of its loops
    refine, and the printer the parser inverts. A frame is a type byte (absent from the first one), a 32-bit
    length that counts itself, and a payload ('Message Formats' in the 'Frontend/Backend Protocol' chapter of
    the PostgreSQL documentation). */
module Frames {
  import opened Common
  import opened Endianness
  import opened Messages

  datatype Scanned =
    | NeedMore
    | BadLength
    | Frame(code: Byte, payload: seq<Byte>, order: Order, length: nat)

  /** The frame at the head of `s`; only frames after the first carry a type byte. */
  function ScanFrame(handled: bool, s: seq<Byte>): Scanned {
    var head := if handled then 1 else 0;
    if |s| < head + 4 then NeedMore
    else
      var length := GuessedUint32(s[head..head + 4]);
      if length < 4 then BadLength
      else if |s| < head + length then NeedMore
      else Frame(if handled then s[0] else STARTUP_CODE, s[head + 4..head + length],
                 CheckEndiannessByUint32(s[head..head + 4]), head + length)
  }

  /** What the visitor does with a message: log a query, or report the end of the session to the bus. */
  datatype Effect = AddMessage(query: seq<Byte>) | EnqueueError

  function Visit(message: Option<Message>): seq<Effect> {
    match message
    case Some(Query(query)) => [AddMessage(query)]
    case Some(Terminate) => [EnqueueError]
    case _ => []
  }

  datatype Parsed = Parsed(effects: seq<Effect>, rest: seq<Byte>, handled: bool, threw: bool)

  /** Frame after frame until one is incomplete, has a bad length, or makes a constructor throw. */
  function Parse(handled: bool, s: seq<Byte>): Parsed
    decreases |s|
  {
    match ScanFrame(handled, s)
    case Frame(code, payload, order, length) =>
      (match MakeMessage(code, payload, order)
       case Threw => Parsed([], s, handled, true)
       case Made(message) =>
         var tail := Parse(true, s[length..]);
         tail.(effects := Visit(message) + tail.effects))
    case _ => Parsed([], s, handled, false)
  }

  // ---------------------------------------------------------------- incremental parsing

  lemma ScannedLength(handled: bool, s: seq<Byte>)
    ensures var frame := ScanFrame(handled, s); frame.Frame? ==> 4 <= frame.length <= |s|
    ensures ScanFrame(handled, []).NeedMore?
  {
  }

  lemma ScanMore(handled: bool, a: seq<Byte>, b: seq<Byte>)
    requires !ScanFrame(handled, a).NeedMore?
    ensures ScanFrame(handled, a + b) == ScanFrame(handled, a)
  {
    var head := if handled then 1 else 0;
    assert (a + b)[head..head + 4] == a[head..head + 4];
    var length := GuessedUint32(a[head..head + 4]);
    if 4 <= length {
      assert (a + b)[head + 4..head + length] == a[head + 4..head + length];
    }
  }

  /** Parsing `a`, then what it left over followed by `b`, is parsing `a + b`; a throw is final. */
  lemma {:induction false} ParseMore(handled: bool, a: seq<Byte>, b: seq<Byte>)
    ensures var p := Parse(handled, a);
            Parse(handled, a + b) ==
            if p.threw then p.(rest := p.rest + b)
            else
              var q := Parse(p.handled, p.rest + b);
              q.(effects := p.effects + q.effects)
    decreases |a|
  {
    hide ScanFrame, MakeMessage, Visit;
    var frame := ScanFrame(handled, a);
    ScannedLength(handled, a);
    if frame.Frame? {
      ScanMore(handled, a, b);
      assert (a + b)[frame.length..] == a[frame.length..] + b;
      ParseMore(true, a[frame.length..], b);
    }
  }

  /** One frame of the parse. */
  lemma ParseStep(handled: bool, s: seq<Byte>)
    ensures var frame := ScanFrame(handled, s);
            if frame.Frame? then
              var made := MakeMessage(frame.code, frame.payload, frame.order);
              if made.Threw? then Parse(handled, s) == Parsed([], s, handled, true)
              else
                4 <= frame.length <= |s| && var tail := Parse(true, s[frame.length..]);
                Parse(handled, s) == tail.(effects := Visit(made.message) + tail.effects)
            else Parse(handled, s) == Parsed([], s, handled, false)
  {
    hide MakeMessage, Visit;
    ScannedLength(handled, s);
  }

  lemma ParseNothing(handled: bool)
    ensures Parse(handled, []) == Parsed([], [], handled, false)
  {
    ScannedLength(handled, []);
  }

  /** The unconsumed bytes are a suffix of the stream that starts where a frame starts: the bytes before it
      parse on their own, to the same effects, with nothing left over. */
  lemma {:induction false} RestStartsFrame(handled: bool, s: seq<Byte>)
    ensures var p := Parse(handled, s);
            && |p.rest| <= |s| && p.rest == s[|s| - |p.rest|..]
            && Parse(handled, s[..|s| - |p.rest|]) == Parsed(p.effects, [], p.handled, false)
    decreases |s|
  {
    hide ScanFrame, MakeMessage, Visit, Parse;
    var p, frame := Parse(handled, s), ScanFrame(handled, s);
    ScannedLength(handled, s);
    ParseNothing(handled);
    ParseStep(handled, s);
    if frame.Frame? && MakeMessage(frame.code, frame.payload, frame.order).Made? {
      var tail := s[frame.length..];
      RestStartsFrame(true, tail);
      var front := s[..|s| - |p.rest|];
      var first := s[..frame.length];
      assert front == first + tail[..|tail| - |p.rest|];
      assert first + tail == s;
      FirstFrame(handled, s);
      ScanMore(handled, first, tail[..|tail| - |p.rest|]);
      assert front[frame.length..] == tail[..|tail| - |p.rest|];
      ParseStep(handled, front);
    } else {
      assert s[..|s| - |p.rest|] == [];
    }
  }

  lemma FirstFrame(handled: bool, s: seq<Byte>)
    requires ScanFrame(handled, s).Frame?
    ensures ScanFrame(handled, s[..ScanFrame(handled, s).length]) == ScanFrame(handled, s)
  {
    var head := if handled then 1 else 0;
    var length := ScanFrame(handled, s).length;
    assert s[..length][head..head + 4] == s[head..head + 4];
    assert s[..length][head + 4..length] == s[head + 4..length];
  }

  /** Unless a constructor threw, the unconsumed bytes hold no complete frame. */
  lemma {:induction false} RestIsIncomplete(handled: bool, s: seq<Byte>)
    requires !Parse(handled, s).threw
    ensures !ScanFrame(Parse(handled, s).handled, Parse(handled, s).rest).Frame?
    decreases |s|
  {
    var frame := ScanFrame(handled, s);
    if frame.Frame? {
      RestIsIncomplete(true, s[frame.length..]);
    }
  }

  // ---------------------------------------------------------------- the printer

  datatype Wire = Wire(code: Byte, payload: seq<Byte>, order: Order)

  /** A frame the parser can recover: its length survives the byte-order guess and its constructor accepts
      the payload. */
  predicate Recoverable(w: Wire) {
    && |w.payload| + 4 < 0x1_0000_0000
    && SurvivesGuess(|w.payload| + 4)
    && (w.code == STARTUP_CODE ==> |w.payload| >= 4)
    && (w.code == QUERY_CODE ==> |w.payload| >= 1)
  }

  predicate AllRecoverable(ws: seq<Wire>) {
    ws == [] || (Recoverable(ws[0]) && AllRecoverable(ws[1..]))
  }

  function Print(w: Wire, typed: bool): seq<Byte>
    requires |w.payload| + 4 < 0x1_0000_0000
  {
    (if typed then [w.code] else []) + EncodeUint32(|w.payload| + 4, w.order) + w.payload
  }

  function PrintAll(ws: seq<Wire>): seq<Byte>
    requires AllRecoverable(ws)
  {
    if ws == [] then [] else Print(ws[0], true) + PrintAll(ws[1..])
  }

  /** The query text or session end that a frame carries. */
  function CarriedBy(w: Wire): seq<Effect> {
    if w.code == QUERY_CODE && w.payload != [] then [AddMessage(w.payload[..|w.payload| - 1])]
    else if w.code == TERMINATE_CODE then [EnqueueError]
    else []
  }

  function Carried(ws: seq<Wire>): seq<Effect> {
    if ws == [] then [] else CarriedBy(ws[0]) + Carried(ws[1..])
  }

  lemma ScanPrinted(w: Wire, typed: bool, after: seq<Byte>)
    requires Recoverable(w) && (typed || w.code == STARTUP_CODE)
    ensures var frame := ScanFrame(typed, Print(w, typed) + after);
            && frame.Frame? && frame.code == w.code && frame.payload == w.payload
            && frame.length == |Print(w, typed)|
  {
    hide GuessedUint32, DecodeUint32, CheckEndiannessByUint32, EncodeUint32, SurvivesGuess;
    var s, head := Print(w, typed) + after, if typed then 1 else 0;
    var length := |w.payload| + 4;
    assert s[head..head + 4] == EncodeUint32(length, w.order);
    GuessExactly(length, w.order);
    assert s[head + 4..head + length] == w.payload;
  }

  lemma MadeFromPrinted(w: Wire, order: Order)
    requires Recoverable(w)
    ensures var made := MakeMessage(w.code, w.payload, order);
            made.Made? && Visit(made.message) == CarriedBy(w)
  {
  }

  lemma ParsePrinted(w: Wire, typed: bool, after: seq<Byte>)
    requires Recoverable(w) && (typed || w.code == STARTUP_CODE)
    ensures var tail := Parse(true, after);
            Parse(typed, Print(w, typed) + after) == tail.(effects := CarriedBy(w) + tail.effects)
  {
    hide MakeMessage, ScanFrame, CarriedBy, Visit;
    var s := Print(w, typed) + after;
    ScanPrinted(w, typed, after);
    MadeFromPrinted(w, ScanFrame(typed, s).order);
    assert s[|Print(w, typed)|..] == after;
  }

  lemma {:induction false} PrintParseFrames(ws: seq<Wire>)
    requires AllRecoverable(ws)
    ensures Parse(true, PrintAll(ws)) == Parsed(Carried(ws), [], true, false)
  {
    hide MakeMessage, ScanFrame, CarriedBy;
    if ws == [] {
      ScannedLength(true, []);
    } else {
      ParsePrinted(ws[0], true, PrintAll(ws[1..]));
      PrintParseFrames(ws[1..]);
    }
  }

  /** A start-up frame and any list of frames, each in either byte order, parse back to what they carry. */
  lemma PrintParse(startup: Wire, ws: seq<Wire>)
    requires startup.code == STARTUP_CODE && Recoverable(startup) && AllRecoverable(ws)
    ensures Parse(false, Print(startup, false) + PrintAll(ws)) == Parsed(Carried(ws), [], true, false)
  {
    ParsePrinted(startup, false, PrintAll(ws));
    PrintParseFrames(ws);
  }

  // ---------------------------------------------------------------- in bytes

  /** A frame as a client sends it, its length in network byte order. */
  function ClientFrame(code: Byte, payload: seq<Byte>): seq<Byte>
    requires |payload| + 4 < 0x1_0000
  {
    [code, 0, 0, (|payload| + 4) / 0x100, (|payload| + 4) % 0x100] + payload
  }

  lemma ClientFrameIsPrinted(code: Byte, payload: seq<Byte>)
    requires |payload| + 4 < 0x1_0000
    ensures ClientFrame(code, payload) == Print(Wire(code, payload, BE), true)
  {
    assert [code] + EncodeUint32(|payload| + 4, BE) == ClientFrame(code, payload)[..5];
  }

  /** A 'Q' frame with a text and its terminator logs the text, and an 'X' frame ends the session, whatever follows;
      a frame with any other code but 0, of a parameter list included, has no effect. */
  lemma ClientFrameEffects(text: seq<Byte>, code: Byte, payload: seq<Byte>, after: seq<Byte>)
    requires |text| + 5 < 0x1_0000 && |payload| + 4 < 0x1_0000
    ensures var rest := Parse(true, after);
            && Parse(true, ClientFrame('Q' as int, text + [0]) + after)
               == rest.(effects := [AddMessage(text)] + rest.effects)
            && Parse(true, [88, 0, 0, 0, 4] + after) == rest.(effects := [EnqueueError] + rest.effects)
            && (code !in {'Q' as int, 'X' as int, 0} ==> Parse(true, ClientFrame(code, payload) + after) == rest)
  {
    hide Parse, Print, ClientFrame, SurvivesGuess, EncodeUint32;
    var query, end, other := Wire(81, text + [0], BE), Wire(88, [], BE), Wire(code, payload, BE);
    assert ClientFrame(88, []) == [88, 0, 0, 0, 4] by {
      EndBytes();
    }
    assert (text + [0])[..|text|] == text;
    ShortSurvives(|text| + 5);
    ShortSurvives(4);
    ClientFrameIsPrinted(81, text + [0]);
    ClientFrameIsPrinted(88, []);
    ParsePrinted(query, true, after);
    ParsePrinted(end, true, after);
    if code !in {'Q' as int, 'X' as int, 0} {
      ShortSurvives(|payload| + 4);
      ClientFrameIsPrinted(code, payload);
      ParsePrinted(other, true, after);
      assert [] + Parse(true, after).effects == Parse(true, after).effects;
    }
  }

  lemma EndBytes()
    ensures ClientFrame(88, []) == [88, 0, 0, 0, 4]
  {
  }

  lemma ShortSurvives(length: nat)
    requires length < 0x1_0000
    ensures SurvivesGuess(length)
  {
    ShortLengthsSurvive(length, BE);
    GuessExactly(length, BE);
  }
}
