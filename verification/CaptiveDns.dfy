/**
 * The captive portal's DNS responder: one 512-byte buffer, walked and rewritten in place. Message formats
 * are those of RFC 1035, sections 4.1.1 to 4.1.4.
 */
module CaptiveDns {
  import opened Options

  type Byte = x: int | 0 <= x < 256

  const SIZE: nat := 512
  const HEADER: nat := 12

  const ANSWER: seq<Byte> := [0xC0, 0x0C, 0, 1, 0, 1, 0, 0, 0, 60, 0, 4, 192, 168, 4, 1]

  /** Two bytes in network order. */
  function Two(hi: Byte, lo: Byte): nat {
    var h: int := hi;
    h * 256 + lo
  }

  /** A name as its labels; the walk takes any length byte, up to 255, as a label's length. */
  predicate ValidName(labels: seq<seq<Byte>>) {
    forall i | 0 <= i < |labels| :: 0 < |labels[i]| < 256
  }

  function Name(labels: seq<seq<Byte>>): (bytes: seq<Byte>)
    requires ValidName(labels)
    ensures |bytes| > 0
  {
    if labels == [] then [0] else [|labels[0]|] + labels[0] + Name(labels[1..])
  }

  /** The message carries this name at `q`. */
  predicate NameAt(msg: seq<Byte>, q: nat, labels: seq<seq<Byte>>) {
    ValidName(labels) && q <= |msg| && Name(labels) <= msg[q..]
  }

  /** Where the label walk stops: at a zero length byte, or outside the message. */
  function Walk(msg: seq<Byte>, q: nat): (end: nat)
    ensures q <= end && (end < |msg| ==> msg[end] == 0)
    decreases |msg| - q
  {
    if q < |msg| && msg[q] != 0 then Walk(msg, q + msg[q] + 1) else q
  }

  /** The labels the walk passed. */
  function Labels(msg: seq<Byte>, q: nat): (labels: seq<seq<Byte>>)
    requires Walk(msg, q) < |msg|
    ensures NameAt(msg, q, labels) && q + |Name(labels)| == Walk(msg, q) + 1
    decreases |msg| - q
  {
    if msg[q] == 0 then
      assert Name([]) <= msg[q..];
      []
    else
      var next := q + msg[q] + 1;
      var rest := Labels(msg, next);
      var labels := [msg[q + 1..next]] + rest;
      assert labels[1..] == rest && msg[q..] == [msg[q]] + msg[q + 1..next] + msg[next..];
      labels
  }

  /** A name that starts with a label: the label, and the rest of the name behind it. */
  lemma NameSplits(msg: seq<Byte>, q: nat, labels: seq<seq<Byte>>)
    requires NameAt(msg, q, labels) && labels != []
    ensures var next := q + |labels[0]| + 1;
      q < |msg| && msg[q] == |labels[0]| && next <= |msg| && msg[q + 1..next] == labels[0] &&
        NameAt(msg, next, labels[1..])
  {
    var bytes, first, rest := Name(labels), labels[0], Name(labels[1..]);
    var n := |first|;
    var next := q + n + 1;
    assert bytes == [n] + first + rest;
    assert msg[q..][..|bytes|] == bytes;
    assert msg[q] == bytes[0];
    assert msg[q + 1..next] == bytes[1..n + 1] == first;
    assert msg[next..][..|rest|] == bytes[n + 1..] == rest;
  }

  lemma {:induction false} WalkReachesEnd(msg: seq<Byte>, q: nat, labels: seq<seq<Byte>>)
    requires NameAt(msg, q, labels)
    ensures Walk(msg, q) == q + |Name(labels)| - 1 < |msg|
    decreases |labels|
  {
    if labels == [] {
      assert msg[q..][0] == Name([])[0];
    } else {
      NameSplits(msg, q, labels);
      WalkReachesEnd(msg, q + |labels[0]| + 1, labels[1..]);
    }
  }

  /** At most one name can stand at a place. */
  lemma {:induction false} OneName(msg: seq<Byte>, q: nat, a: seq<seq<Byte>>, b: seq<seq<Byte>>)
    requires NameAt(msg, q, a) && NameAt(msg, q, b)
    ensures a == b
    decreases |a|
  {
    assert msg[q..][0] == Name(a)[0] == Name(b)[0];
    if a != [] && b != [] {
      NameSplits(msg, q, a);
      NameSplits(msg, q, b);
      OneName(msg, q + |a[0]| + 1, a[1..], b[1..]);
      assert a == [a[0]] + a[1..] && b == [b[0]] + b[1..];
    }
  }

  /** A name in the message is what the walk finds, and no other is. */
  lemma WalkFindsName(msg: seq<Byte>, q: nat, labels: seq<seq<Byte>>)
    requires NameAt(msg, q, labels)
    ensures Walk(msg, q) == q + |Name(labels)| - 1 < |msg|
    ensures Labels(msg, q) == labels
  {
    WalkReachesEnd(msg, q, labels);
    OneName(msg, q, labels, Labels(msg, q));
  }

  /** The first byte of the question behind the name. */
  function AfterName(msg: seq<Byte>): nat {
    Walk(msg, HEADER) + 1
  }

  /** A message the responder answers: a header, a query, one question, and that question complete. */
  ghost predicate IsQuery(msg: seq<Byte>) {
    && HEADER <= |msg| && msg[2] < 128 && Two(msg[4], msg[5]) == 1
    && exists labels :: NameAt(msg, HEADER, labels) && HEADER + |Name(labels)| + 4 <= |msg|
  }

  predicate Accepts(msg: seq<Byte>) {
    HEADER <= |msg| && msg[2] < 128 && Two(msg[4], msg[5]) == 1 && AfterName(msg) + 4 <= |msg|
  }

  lemma AcceptsQueries(msg: seq<Byte>)
    ensures Accepts(msg) <==> IsQuery(msg)
  {
    if Accepts(msg) {
      var labels := Labels(msg, HEADER);
      assert NameAt(msg, HEADER, labels);
    }
    if IsQuery(msg) {
      var labels :| NameAt(msg, HEADER, labels) && HEADER + |Name(labels)| + 4 <= |msg|;
      WalkFindsName(msg, HEADER, labels);
    }
  }

  /** The header of a message, section 4.1.1. */
  datatype Header = Header(
    id: nat, response: bool, opcode: nat, authoritative: bool, truncated: bool, desired: bool,
    available: bool, reserved: nat, code: nat, questions: nat, answers: nat, authorities: nat, additional: nat)

  function Word(msg: seq<Byte>, i: nat): nat
    requires i + 2 <= |msg|
  {
    Two(msg[i], msg[i + 1])
  }

  function ReadHeader(msg: seq<Byte>): Header
    requires HEADER <= |msg|
  {
    Header(Word(msg, 0), msg[2] >= 128, msg[2] / 8 % 16, msg[2] / 4 % 2 == 1, msg[2] / 2 % 2 == 1, msg[2] % 2 == 1,
           msg[3] >= 128, msg[3] / 16 % 8, msg[3] % 16, Word(msg, 4), Word(msg, 6), Word(msg, 8), Word(msg, 10))
  }

  datatype Record = Record(name: seq<seq<Byte>>, kind: nat, class_: nat, ttl: nat, data: seq<Byte>)

  /** A resource record, section 4.1.3, whose name refers back, section 4.1.4, to an earlier one. */
  function ReadRecord(msg: seq<Byte>, at: nat): Option<Record> {
    if at + 12 > |msg| || msg[at] < 192 then None
    else
      var back := Word(msg, at) - 192 * 256;
      var length := Word(msg, at + 10);
      if back >= at || Walk(msg, back) >= |msg| || at + 12 + length > |msg| then None
      else Some(Record(Labels(msg, back), Word(msg, at + 2), Word(msg, at + 4),
                       Word(msg, at + 6) * 65536 + Word(msg, at + 8), msg[at + 12..at + 12 + length]))
  }

  function Kind(msg: seq<Byte>): nat
    requires Accepts(msg)
  {
    Word(msg, AfterName(msg))
  }

  /** The question asks for an address and the answer fits the buffer. */
  predicate Answers(msg: seq<Byte>)
    requires Accepts(msg)
  {
    Kind(msg) == 1 && AfterName(msg) + 4 + |ANSWER| <= SIZE
  }

  /** What is sent for an accepted query. */
  function Reply(msg: seq<Byte>): (reply: seq<Byte>)
    requires Accepts(msg)
  {
    var end := AfterName(msg) + 4;
    [msg[0], msg[1], 0x84 + msg[2] % 2, 0x80, msg[4], msg[5], 0, if Answers(msg) then 1 else 0, 0, 0, 0, 0]
    + msg[HEADER..end] + if Answers(msg) then ANSWER else []
  }

  /** Appends the answer behind the question. */
  method WriteAnswer(buf: array<Byte>, end: nat)
    requires buf.Length == SIZE && end + |ANSWER| <= SIZE
    modifies buf
    ensures buf[..end] == old(buf[..end]) && buf[end..end + |ANSWER|] == ANSWER
  {
    var p := 0;
    while p < |ANSWER|
      invariant 0 <= p <= |ANSWER|
      invariant buf[..end] == old(buf[..end]) && buf[end..end + p] == ANSWER[..p]
    {
      buf[end + p] := ANSWER[p];
      p := p + 1;
    }
  }

  /** Turns the header into that of a reply with `answers` answers. */
  method WriteHeader(buf: array<Byte>, answers: Byte)
    requires buf.Length == SIZE
    modifies buf
    ensures buf[HEADER..] == old(buf[HEADER..])
    ensures buf[..HEADER] == [old(buf[0]), old(buf[1]), 0x84 + old(buf[2]) % 2, 0x80, old(buf[4]), old(buf[5]), 0,
                              answers, 0, 0, 0, 0]
  {
    buf[2] := 0x84 + buf[2] % 2;
    buf[3] := 0x80;
    buf[6], buf[7] := 0, answers;
    buf[8], buf[9] := 0, 0;
    buf[10], buf[11] := 0, 0;
  }

  /** The walk over the question's name, within the bytes received. */
  method FindEnd(buf: array<Byte>, len: nat) returns (q: nat)
    requires HEADER <= len <= buf.Length
    ensures q == Walk(buf[..len], HEADER)
  {
    q := HEADER;
    while q < len && buf[q] != 0
      invariant HEADER <= q && Walk(buf[..len], HEADER) == Walk(buf[..len], q)
      decreases len - q
    {
      q := q + buf[q] + 1;
    }
  }

  /** Rewrites an accepted query of `end` bytes into its reply. */
  method Rewrite(buf: array<Byte>, end: nat, answers: bool) returns (sent: nat)
    requires buf.Length == SIZE && HEADER <= end <= SIZE && (answers ==> end + |ANSWER| <= SIZE)
    modifies buf
    ensures sent == end + (if answers then |ANSWER| else 0)
    ensures buf[..sent] ==
      [old(buf[0]), old(buf[1]), 0x84 + old(buf[2]) % 2, 0x80, old(buf[4]), old(buf[5]),
       0, if answers then 1 else 0, 0, 0, 0, 0]
      + old(buf[HEADER..end]) + if answers then ANSWER else []
  {
    ghost var rest := buf[HEADER..];
    WriteHeader(buf, if answers then 1 else 0);
    ghost var headed := buf[..end];
    Joined(headed, buf[..HEADER], rest[..end - HEADER]);
    sent := end;
    if answers {
      WriteAnswer(buf, end);
      Joined(buf[..end + 16], headed, ANSWER);
      sent := end + 16;
    }
  }

  /** The end of the question and what it asks for, or nothing when the message is not for the responder. */
  method Examine(buf: array<Byte>, len: nat) returns (end: nat, kind: nat)
    requires len <= buf.Length
    ensures end > 0 <==> Accepts(buf[..len])
    ensures end > 0 ==> HEADER <= end == AfterName(buf[..len]) + 4 <= len && kind == Kind(buf[..len])
  {
    if len < HEADER || buf[2] >= 128 || Two(buf[4], buf[5]) != 1 {
      return 0, 0;
    }
    var q := FindEnd(buf, len);
    if q >= len || q + 5 > len {
      return 0, 0;
    }
    return q + 5, Two(buf[q + 1], buf[q + 2]);
  }

  /** The responder's handling of the `len` bytes it received; `sent` is the length of its reply, if any. */
  method Respond(buf: array<Byte>, len: nat) returns (sent: nat)
    requires buf.Length == SIZE && len <= SIZE
    modifies buf
    ensures sent > 0 <==> Accepts(old(buf[..len]))
    ensures sent == 0 ==> buf[..] == old(buf[..])
    ensures sent > 0 ==> sent <= SIZE && buf[..sent] == Reply(old(buf[..len]))
  {
    ghost var msg := buf[..len];
    var end, kind := Examine(buf, len);
    if end == 0 {
      return 0;
    }
    var answers := kind == 1 && end + 16 <= SIZE;
    assert buf[..len][HEADER..end] == buf[HEADER..end];
    assert buf[0] == msg[0] && buf[1] == msg[1] && buf[2] == msg[2] && buf[4] == msg[4] && buf[5] == msg[5];
    sent := Rewrite(buf, end, answers);
  }

  lemma Joined(whole: seq<Byte>, first: seq<Byte>, second: seq<Byte>)
    requires |whole| == |first| + |second| && whole[..|first|] == first && whole[|first|..] == second
    ensures whole == first + second
  {
  }

  lemma ReplyParts(msg: seq<Byte>)
    requires Accepts(msg)
    ensures var reply, end := Reply(msg), AfterName(msg) + 4;
      && |reply| == end + (if Answers(msg) then 16 else 0)
      && reply[..HEADER] == [msg[0], msg[1], 0x84 + msg[2] % 2, 0x80, msg[4], msg[5],
                             0, if Answers(msg) then 1 else 0, 0, 0, 0, 0]
      && reply[HEADER..end] == msg[HEADER..end]
      && (Answers(msg) ==> reply[end..] == ANSWER)
  {
  }

  lemma ReplyHeader(msg: seq<Byte>)
    requires Accepts(msg)
    ensures var h := ReadHeader(msg);
      |Reply(msg)| >= HEADER &&
      ReadHeader(Reply(msg)) ==
        Header(h.id, true, 0, true, false, h.desired, true, 0, 0, 1, if Answers(msg) then 1 else 0, 0, 0)
  {
    var reply := Reply(msg);
    ReplyParts(msg);
    var head := reply[..HEADER];
    assert forall i | 0 <= i < HEADER :: reply[i] == head[i];
    assert head[2] == 0x84 || head[2] == 0x85;
  }

  lemma AnswerWords(reply: seq<Byte>, end: nat)
    requires end <= |reply| && reply[end..] == ANSWER
    ensures |reply| == end + 16 && reply[end] >= 192
    ensures Word(reply, end) == 0xC00C && Word(reply, end + 2) == 1 && Word(reply, end + 4) == 1
    ensures Word(reply, end + 6) == 0 && Word(reply, end + 8) == 60 && Word(reply, end + 10) == 4
    ensures reply[end + 12..end + 16] == [192, 168, 4, 1]
  {
    var answer := reply[end..];
    assert reply[end] == answer[0] && reply[end + 1] == answer[1];
    assert reply[end + 2] == answer[2] && reply[end + 3] == answer[3];
    assert reply[end + 4] == answer[4] && reply[end + 5] == answer[5];
    assert reply[end + 6] == answer[6] && reply[end + 7] == answer[7];
    assert reply[end + 8] == answer[8] && reply[end + 9] == answer[9];
    assert reply[end + 10] == answer[10] && reply[end + 11] == answer[11];
    assert reply[end + 12..end + 16] == answer[12..16];
  }

  lemma ReplyRecord(msg: seq<Byte>)
    requires Accepts(msg) && Answers(msg)
    ensures ReadRecord(Reply(msg), AfterName(msg) + 4) == Some(Record(Labels(msg, HEADER), 1, 1, 60, [192, 168, 4, 1]))
  {
    var reply, end := Reply(msg), AfterName(msg) + 4;
    ReplyParts(msg);
    AnswerWords(reply, end);
    var labels := Labels(msg, HEADER);
    SamePlace(msg, reply, end, labels);
    WalkFindsName(reply, HEADER, labels);
  }

  /** The reply as a resolver reads it: the query's identification and question, no error, and for an
      address query that fits, one address record of the portal under the name that was asked for. The
      recursion-desired bit is the query's; the opcode is always zero, so it is the query's only when that
      was a standard query. */
  lemma ReplyReads(msg: seq<Byte>)
    requires Accepts(msg) && |msg| <= SIZE
    ensures var reply, end := Reply(msg), AfterName(msg) + 4;
      var h := ReadHeader(msg);
      && HEADER <= end <= |reply| <= SIZE
      && ReadHeader(reply) == Header(h.id, true, 0, true, false, h.desired, true, 0, 0, 1,
                                     if Answers(msg) then 1 else 0, 0, 0)
      && reply[HEADER..end] == msg[HEADER..end]
      && |reply| == (if Answers(msg) then end + 16 else end)
      && (Answers(msg) ==> ReadRecord(reply, end) == Some(Record(Labels(msg, HEADER), 1, 1, 60, [192, 168, 4, 1])))
  {
    ReplyParts(msg);
    ReplyHeader(msg);
    if Answers(msg) {
      ReplyRecord(msg);
    }
  }

  lemma SamePlace(msg: seq<Byte>, reply: seq<Byte>, end: nat, labels: seq<seq<Byte>>)
    requires NameAt(msg, HEADER, labels) && HEADER + |Name(labels)| <= end <= |msg| && end <= |reply|
    requires reply[HEADER..end] == msg[HEADER..end]
    ensures NameAt(reply, HEADER, labels)
  {
    var n := |Name(labels)|;
    var there, here := msg[HEADER..end], reply[HEADER..end];
    forall i | 0 <= i < n
      ensures reply[HEADER..][i] == Name(labels)[i]
    {
      assert reply[HEADER + i] == here[i] == there[i] == msg[HEADER + i];
      assert msg[HEADER..][i] == Name(labels)[i];
    }
  }
}
