/** PostgreSQL protocol messages and their constructors (src/psql_proxy/message.cpp, src/psql_proxy/protocol/). */
module Messages {
  import opened Common
  import opened Endianness

  datatype Parameter = Parameter(name: seq<Byte>, value: seq<Byte>)

  type Int16 = x: int | -0x8000 <= x < 0x8000

  /** A 16-bit word stored in a signed field. */
  function AsInt16(x: nat): Int16
    requires x < 0x1_0000
  {
    if x < 0x8000 then x else x - 0x1_0000
  }

  /** The start-up message keeps the two halves of its version number; its parameter list is not modelled. */
  datatype Message =
    | StartupMessage(major: Int16, minor: Int16)
    | ParameterStatus(parameters: seq<Parameter>)
    | Query(query: seq<Byte>)
    | Terminate

  /** A constructor yields a message, or none for a code it does not know, or throws. */
  datatype Outcome = Made(message: Option<Message>) | Threw

  const STARTUP_CODE: Byte := 0
  const PARAMETER_STATUS_CODE: Byte := 83  // 'S'
  const QUERY_CODE: Byte := 81             // 'Q'
  const TERMINATE_CODE: Byte := 88         // 'X'

  function MakeStartup(payload: seq<Byte>, order: Order): Outcome {
    if |payload| < 4 then Threw
    else
      Made(Some(StartupMessage(AsInt16(DecodeUint16(payload[0..2], order)),
                               AsInt16(DecodeUint16(payload[2..4], order)))))
  }

  /** The payload without its last byte. An empty payload makes the source step back from its start and build
      a string of negative length; that is taken as a throw. */
  function MakeQuery(payload: seq<Byte>): Outcome {
    if payload == [] then Threw else Made(Some(Query(payload[..|payload| - 1])))
  }

  function MakeMessage(code: Byte, payload: seq<Byte>, order: Order): Outcome {
    if code == STARTUP_CODE then MakeStartup(payload, order)
    else if code == PARAMETER_STATUS_CODE then Made(Some(ParameterStatus(Pairs(Fields(payload)))))
    else if code == QUERY_CODE then MakeQuery(payload)
    else if code == TERMINATE_CODE then Made(Some(Terminate))
    else Made(None)
  }

  /** A start-up payload that begins with two signed 16-bit numbers in some order, in two's complement, followed
      by anything, yields them as the version read in that order. */
  lemma StartupVersion(major: Int16, minor: Int16, order: Order, rest: seq<Byte>)
    ensures var version := EncodeUint16(major % 0x1_0000, order) + EncodeUint16(minor % 0x1_0000, order);
            MakeMessage(STARTUP_CODE, version + rest, order) == Made(Some(StartupMessage(major, minor)))
  {
    var a, b := EncodeUint16(major % 0x1_0000, order), EncodeUint16(minor % 0x1_0000, order);
    assert (a + b + rest)[0..2] == a && (a + b + rest)[2..4] == b;
    hide AsInt16, DecodeUint16, EncodeUint16;
    HalfVersion(major, order);
    HalfVersion(minor, order);
  }

  lemma HalfVersion(v: Int16, order: Order)
    ensures DecodeUint16(EncodeUint16(v % 0x1_0000, order), order) == v % 0x1_0000
    ensures AsInt16(v % 0x1_0000) == v
  {
    if v < 0 {
      assert v % 0x1_0000 == v + 0x1_0000;
    }
  }

  /** The messages in bytes: 'Q' marks a query, 'X' the end of the session, 'S' a parameter list, and 0 the start-up
      message; every other code is passed over. */
  lemma MessageBytes(text: seq<Byte>, payload: seq<Byte>, code: Byte, order: Order)
    ensures MakeMessage('Q' as int, text + [0], order) == Made(Some(Query(text)))
    ensures MakeMessage('X' as int, payload, order) == Made(Some(Terminate))
    ensures MakeMessage('S' as int, payload, order) == Made(Some(ParameterStatus(Pairs(Fields(payload)))))
    ensures MakeMessage(0, [0, 3, 0, 0] + payload, BE) == Made(Some(StartupMessage(3, 0)))
    ensures code !in {'Q' as int, 'X' as int, 'S' as int, 0} ==> MakeMessage(code, payload, order) == Made(None)
  {
    hide MakeStartup, Fields, Pairs;
    assert (text + [0])[..|text|] == text;
    VersionThree(payload);
  }

  lemma VersionThree(rest: seq<Byte>)
    ensures MakeMessage(0, [0, 3, 0, 0] + rest, BE) == Made(Some(StartupMessage(3, 0)))
  {
    hide DecodeUint16, AsInt16, Fields, Pairs;
    var payload := [0, 3, 0, 0] + rest;
    assert payload[0..2] == [0, 3] && payload[2..4] == [0, 0];
    HalfBytes(0, 3);
    HalfBytes(0, 0);
  }

  lemma HalfBytes(hi: Byte, lo: Byte)
    requires hi < 0x80
    ensures DecodeUint16([hi, lo], BE) < 0x1_0000 && AsInt16(DecodeUint16([hi, lo], BE)) == hi * 0x100 + lo
  {
  }

  // ---------------------------------------------------------------- parameter lists

  const NUL: Byte := 0

  predicate NulFree(s: seq<Byte>) {
    NUL !in s
  }

  predicate AllNulFree(fields: seq<seq<Byte>>) {
    forall k :: 0 <= k < |fields| ==> NulFree(fields[k])
  }

  /** The NUL-terminated fields of `s`, without a last one that lacks its terminator. */
  function Fields(s: seq<Byte>): seq<seq<Byte>> {
    FieldsFrom([], s)
  }

  /** The fields of `s`, the first of which begins with `field`. */
  function FieldsFrom(field: seq<Byte>, s: seq<Byte>): seq<seq<Byte>>
    decreases s
  {
    if s == [] then []
    else if s[0] == NUL then [field] + FieldsFrom([], s[1..])
    else FieldsFrom(field + [s[0]], s[1..])
  }

  /** Fields taken two at a time; a name without a value is dropped. */
  function Pairs(fields: seq<seq<Byte>>): seq<Parameter> {
    if |fields| < 2 then [] else [Parameter(fields[0], fields[1])] + Pairs(fields[2..])
  }

  function Render(fields: seq<seq<Byte>>): seq<Byte> {
    if fields == [] then [] else fields[0] + [NUL] + Render(fields[1..])
  }

  lemma {:induction false} RenderSnoc(fields: seq<seq<Byte>>, field: seq<Byte>)
    ensures Render(fields + [field]) == Render(fields) + field + [NUL]
  {
    if fields == [] {
      assert Render([field]) == field + [NUL] + Render([]);
    } else {
      assert (fields + [field])[1..] == fields[1..] + [field];
      RenderSnoc(fields[1..], field);
    }
  }

  lemma {:induction false} PairsSnoc(fields: seq<seq<Byte>>, field: seq<Byte>)
    ensures Pairs(fields + [field]) ==
            Pairs(fields) + (if |fields| % 2 == 1 then [Parameter(fields[|fields| - 1], field)] else [])
  {
    if |fields| >= 2 {
      assert (fields + [field])[2..] == fields[2..] + [field];
      PairsSnoc(fields[2..], field);
    }
  }

  lemma {:induction false} FieldsFromRun(field: seq<Byte>, run: seq<Byte>, s: seq<Byte>)
    requires NulFree(run)
    ensures FieldsFrom(field, run + s) == FieldsFrom(field + run, s)
    decreases run
  {
    if run == [] {
      assert run + s == s && field + run == field;
    } else {
      assert (run + s)[1..] == run[1..] + s;
      FieldsFromRun(field + [run[0]], run[1..], s);
      assert field + [run[0]] + run[1..] == field + run;
    }
  }

  /** Rendered NUL-free fields, followed by an unterminated rest, scan back to the same fields. */
  lemma {:induction false} RenderScan(fields: seq<seq<Byte>>, rest: seq<Byte>)
    requires AllNulFree(fields) && NulFree(rest)
    ensures Fields(Render(fields) + rest) == fields
  {
    if fields == [] {
      FieldsFromRun([], rest, []);
      assert Render(fields) + rest == rest + [];
    } else {
      var tail := [NUL] + (Render(fields[1..]) + rest);
      assert Render(fields) + rest == fields[0] + tail;
      FieldsFromRun([], fields[0], tail);
      assert [] + fields[0] == fields[0] && tail[1..] == Render(fields[1..]) + rest;
      RenderScan(fields[1..], rest);
    }
  }

  lemma RenderCons(field: seq<Byte>, fields: seq<seq<Byte>>)
    requires NulFree(field) && AllNulFree(fields)
    ensures AllNulFree([field] + fields) && Render([field] + fields) == field + [NUL] + Render(fields)
  {
    assert ([field] + fields)[1..] == fields;
  }

  /** Every payload is a rendering of its fields followed by an unterminated rest. */
  lemma {:induction false} ScanRender(field: seq<Byte>, s: seq<Byte>) returns (rest: seq<Byte>)
    requires NulFree(field)
    ensures AllNulFree(FieldsFrom(field, s)) && NulFree(rest)
    ensures field + s == Render(FieldsFrom(field, s)) + rest
    decreases s
  {
    if s == [] {
      rest := field;
    } else if s[0] == NUL {
      rest := ScanRender([], s[1..]);
      var fields := FieldsFrom([], s[1..]);
      RenderCons(field, fields);
      assert field + s == field + [NUL] + ([] + s[1..]);
      assert field + [NUL] + (Render(fields) + rest) == Render([field] + fields) + rest;
    } else {
      rest := ScanRender(field + [s[0]], s[1..]);
      assert field + [s[0]] + s[1..] == field + s;
    }
  }

  /** The scanner of make_param_status_msg: names and values alternate, each ended by a NUL. */
  method MakeParameterStatus(payload: seq<Byte>) returns (parameters: seq<Parameter>)
    ensures parameters == Pairs(Fields(payload))
  {
    hide Fields, Render, Pairs;
    parameters := [];
    RenderNothing();
    var begin := 0;
    var name: Option<seq<Byte>> := None;
    ghost var fields: seq<seq<Byte>> := [];
    for cur := 0 to |payload|
      invariant begin <= cur
      invariant AllNulFree(fields) && payload[..begin] == Render(fields)
      invariant NulFree(payload[begin..cur])
      invariant parameters == Pairs(fields)
      invariant name == if |fields| % 2 == 1 then Some(fields[|fields| - 1]) else None
    {
      assert payload[begin..cur + 1] == payload[begin..cur] + [payload[cur]];
      if payload[cur] == NUL {
        var field := payload[begin..cur];
        RenderSnoc(fields, field);
        PairsSnoc(fields, field);
        CutAt(payload, begin, cur);
        if name.None? {
          name := Some(field);
        } else {
          parameters := parameters + [Parameter(name.value, field)];
          name := None;
        }
        begin := cur + 1;
        fields := fields + [field];
      }
    }
    RenderScan(fields, payload[begin..]);
    assert payload == payload[..begin] + payload[begin..];
  }

  lemma RenderNothing()
    ensures Render([]) == [] && Pairs([]) == []
  {
  }

  lemma CutAt(payload: seq<Byte>, begin: nat, cur: nat)
    requires begin <= cur < |payload|
    ensures payload[..cur + 1] == payload[..begin] + payload[begin..cur] + [payload[cur]]
  {
  }

  /** Any list of NUL-free names and values survives being rendered and scanned, whatever dangling name and
      unterminated rest follow it. */
  lemma ParametersRoundTrip(parameters: seq<Parameter>, dangling: seq<seq<Byte>>, rest: seq<Byte>)
    requires forall k :: 0 <= k < |parameters| ==> NulFree(parameters[k].name) && NulFree(parameters[k].value)
    requires |dangling| <= 1 && AllNulFree(dangling) && NulFree(rest)
    ensures var payload := Render(Unpaired(parameters) + dangling) + rest;
            forall order ::
              MakeMessage(PARAMETER_STATUS_CODE, payload, order) == Made(Some(ParameterStatus(parameters)))
  {
    UnpairedNulFree(parameters);
    RenderScan(Unpaired(parameters) + dangling, rest);
    PairsOfUnpaired(parameters, dangling);
  }

  function Unpaired(parameters: seq<Parameter>): seq<seq<Byte>> {
    if parameters == [] then [] else [parameters[0].name, parameters[0].value] + Unpaired(parameters[1..])
  }

  lemma {:induction false} UnpairedNulFree(parameters: seq<Parameter>)
    requires forall k :: 0 <= k < |parameters| ==> NulFree(parameters[k].name) && NulFree(parameters[k].value)
    ensures AllNulFree(Unpaired(parameters))
  {
    if parameters != [] {
      UnpairedNulFree(parameters[1..]);
    }
  }

  lemma {:induction false} PairsOfUnpaired(parameters: seq<Parameter>, dangling: seq<seq<Byte>>)
    requires |dangling| <= 1
    ensures Pairs(Unpaired(parameters) + dangling) == parameters
  {
    if parameters != [] {
      assert (Unpaired(parameters) + dangling)[2..] == Unpaired(parameters[1..]) + dangling;
      PairsOfUnpaired(parameters[1..], dangling);
    }
  }
}
