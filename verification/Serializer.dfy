/** The request and response serializers, src/http/writers. */
module Serializer {
  import opened Bytes
  import opened MessageParser
  import opened Ordering

  const CRLF: Data := "\r\n"

  // A Response always holds a Status, which only Status::from makes.
  predicate WellTyped(m: Message) {
    m.start.StatusLine? ==> m.start.code.Some? && 100 <= m.start.code.value < 600
  }

  function StartText(m: Message): Data
    requires WellTyped(m)
  {
    match m.start
    case RequestLine(verb, path, version) => CString(verb) + " " + CString(path) + " " + CString(version)
    case StatusLine(version, code, status) => CString(version) + " " + Decimal(code.value) + " " + CString(status)
  }

  function HeaderText(key: Data, val: Data): Data {
    CString(key) + ": " + CString(val) + CRLF
  }

  function HeadersText(keys: seq<Data>, headers: map<Data, Data>): Data
    requires forall k :: k in keys ==> k in headers
  {
    if keys == [] then []
    else HeaderText(keys[0], headers[keys[0]]) + HeadersText(keys[1..], headers)
  }

  // Everything before the body.
  function Head(m: Message): Data
    requires WellTyped(m)
  {
    StartText(m) + CRLF + (HeadersText(InOrder(m.headers.Keys), m.headers) + CRLF)
  }

  function Wire(m: Message): Data
    requires WellTyped(m)
  {
    Head(m) + m.body
  }

  lemma {:induction false} HeadersTextSnoc(keys: seq<Data>, k: Data, headers: map<Data, Data>)
    requires forall x :: x in keys + [k] ==> x in headers
    ensures HeadersText(keys + [k], headers) == HeadersText(keys, headers) + HeaderText(k, headers[k])
  {
    if keys == [] {
      assert keys + [k] == [k];
    } else {
      assert (keys + [k])[1..] == keys[1..] + [k];
      HeadersTextSnoc(keys[1..], k, headers);
    }
  }

  datatype Stage = HeadersStage | BodyStage | ReadyStage

  // A serializer's fields.
  datatype Serial = Serial(headers: Data, body: Data, stage: Stage)

  // get_data: the part handed out, and the fields after it.
  datatype Part = Part(data: Data, next: Serial)

  function NextPart(s: Serial): Part {
    match s.stage
    case HeadersStage => Part(s.headers, Serial([], s.body, BodyStage))
    case BodyStage => Part(s.body, Serial(s.headers, [], ReadyStage))
    case ReadyStage => Part([], s)
  }

  function SerialOf(m: Message): Serial
    requires WellTyped(m)
  {
    Serial(Head(m), m.body, HeadersStage)
  }

  // What is still to be handed out.
  function Remaining(s: Serial): Data {
    match s.stage
    case HeadersStage => s.headers + s.body
    case BodyStage => s.body
    case ReadyStage => []
  }

  // The fields after k calls of get_data, and what these handed out.
  function After(s: Serial, k: nat): Serial
    decreases k
  {
    if k == 0 then s else After(NextPart(s).next, k - 1)
  }

  function Handed(s: Serial, k: nat): Data
    decreases k
  {
    if k == 0 then [] else NextPart(s).data + Handed(NextPart(s).next, k - 1)
  }

  lemma {:induction false} HandedAndRemaining(s: Serial, k: nat)
    ensures Handed(s, k) + Remaining(After(s, k)) == Remaining(s)
    decreases k
  {
    if k > 0 {
      var part := NextPart(s);
      HandedAndRemaining(part.next, k - 1);
      assert part.data + Remaining(part.next) == Remaining(s);
    }
  }

  lemma {:induction false} ReadyStays(s: Serial, k: nat)
    requires s.stage == ReadyStage
    ensures After(s, k) == s
    decreases k
  {
    if k > 0 {
      ReadyStays(s, k - 1);
    }
  }

  // A serializer is ready exactly after two calls of get_data, and has then handed out the whole message.
  lemma ReadyAfterBoth(m: Message, k: nat)
    requires WellTyped(m)
    ensures After(SerialOf(m), k).stage == ReadyStage <==> k >= 2
    ensures k == 1 ==> Handed(SerialOf(m), k) == Head(m)
    ensures k >= 2 ==> Handed(SerialOf(m), k) == Wire(m)
  {
    hide Head;
    var s := SerialOf(m);
    var second := NextPart(NextPart(s).next).next;
    assert k == 1 ==>
             After(s, k) == After(NextPart(s).next, 0) && Handed(s, k) == Head(m) + Handed(NextPart(s).next, 0);
    if k >= 2 {
      assert After(s, k) == After(NextPart(s).next, k - 1) == After(second, k - 2);
      ReadyStays(second, k - 2);
      HandedAndRemaining(s, k);
      assert Handed(s, k) + [] == Handed(s, k);
    }
  }

  class MessageSerializer {
    var headers: Data
    var body: Data
    var stage: Stage

    ghost function View(): Serial
      reads this
    {
      Serial(headers, body, stage)
    }

    constructor (m: Message)
      requires WellTyped(m)
      ensures View() == SerialOf(m)
    {
      var text := [];
      match m.start {
        case RequestLine(verb, path, version) =>
          text := CString(verb) + " " + CString(path) + " " + CString(version);
        case StatusLine(version, code, status) =>
          text := CString(version) + " " + Decimal(code.value) + " " + CString(status);
      }
      text := text + CRLF;
      var keys := InOrder(m.headers.Keys);
      var lines := [];
      for i := 0 to |keys|
        invariant lines == HeadersText(keys[..i], m.headers)
      {
        HeadersTextSnoc(keys[..i], keys[i], m.headers);
        assert keys[..i] + [keys[i]] == keys[..i + 1];
        lines := lines + HeaderText(keys[i], m.headers[keys[i]]);
      }
      assert keys[..|keys|] == keys;
      headers := text + (lines + CRLF);
      body := m.body;
      stage := HeadersStage;
    }

    method GetData() returns (data: Data)
      modifies this
      ensures Part(data, View()) == NextPart(old(View()))
      ensures data + Remaining(View()) == Remaining(old(View()))
    {
      match stage {
        case HeadersStage =>
          stage := BodyStage;
          data, headers := headers, [];
        case BodyStage =>
          stage := ReadyStage;
          data, body := body, [];
        case ReadyStage =>
          data := [];
      }
    }

    method IsReady() returns (ready: bool)
      ensures ready <==> NextPart(View()) == Part([], View())
      ensures ready ==> Remaining(View()) == []
    {
      ready := stage == ReadyStage;
    }
  }
}
