// Response messages (section 4.1 of RFC 1035): how the resolver reads one, and that it finds in any
// well-formed response the address the response gives.
module DnsMessages {
  import opened Wrappers
  import opened DnsNames
  import opened DnsReaders
  import DnsSpec

  const HEADER := 12
  const QUERY := 4
  const ANSWER := 10
  const TYPE_A := 1
  const CLASS_IN := 1

  // Numbers in network order.
  function Word16(buf: seq<Byte>, p: nat): int
    requires p + 2 <= |buf|
  {
    buf[p] * 256 + buf[p + 1]
  }

  function Word32(buf: seq<Byte>, p: nat): int
    requires p + 4 <= |buf|
  {
    Word16(buf, p) * 0x1_0000 + Word16(buf, p + 2)
  }

  predicate Octets(buf: seq<Byte>) { forall i :: 0 <= i < |buf| ==> 0 <= buf[i] < 256 }

  lemma Word16Range(buf: seq<Byte>, p: nat)
    requires Octets(buf) && p + 2 <= |buf|
    ensures 0 <= Word16(buf, p) < 0x1_0000
  {}

  // ---- room for a query ------------------------------------------------------------------

  // The packet a query is written to has room for a header, a name array and a question.
  const QUERY_ROOM := HEADER + DnsSpec.DNS_MAX_NAME_LENGTH + QUERY

  function QuerySize(name: seq<Byte>): nat { HEADER + |WireOf(name)| + QUERY }

  // Names of 255 characters are accepted, and run one byte past it.
  lemma QueryFits(name: seq<Byte>)
    requires IsName(name)
    ensures QuerySize(name) <= QUERY_ROOM <==> |name| <= 254
    ensures QuerySize(name) <= QUERY_ROOM + 1
  {
    WireOfLength(name);
  }

  lemma LongestOverruns() returns (name: seq<Byte>)
    ensures IsName(name) && |name| == 255 && QuerySize(name) == QUERY_ROOM + 1
  {
    name := seq(255, _ => 97);
    WireOfLength(name);
  }

  // ---- reading ---------------------------------------------------------------------------

  // The first of n answer records from p on that is an Internet address, if there is one; nothing
  // if the walk leaves the buffer.
  function Answers(buf: seq<Byte>, p: nat, n: nat): Option<DnsSpec.Verdict>
    requires Octets(buf)
    decreases n
  {
    if n == 0 then Some(DnsSpec.Failure)
    else match Skip(buf, p)
      case None => None
      case Some(q) =>
        if q + ANSWER > |buf| then None
        else if Word16(buf, q) == TYPE_A && Word16(buf, q + 2) == CLASS_IN && Word16(buf, q + 8) == 4 then
          if q + ANSWER + 4 > |buf| then None else Some(AddressAt(buf, q))
        else Answers(buf, q + ANSWER + Length(Word16(buf, q + 8)), n - 1)
  }

  function AddressAt(buf: seq<Byte>, q: nat): DnsSpec.Verdict
    requires Octets(buf) && q + ANSWER + 4 <= |buf|
  {
    Word16Range(buf, q + 4);
    Word16Range(buf, q + 6);
    DnsSpec.Answer(Word32(buf, q + 4), Word32(buf, q + ANSWER))
  }

  // What the message amounts to for an entry that asks for the query: the header, the name in the
  // question and the records are looked at in turn.
  function VerdictOf(query: seq<Byte>, buf: seq<Byte>): Option<DnsSpec.Verdict>
    requires Octets(buf) && |buf| >= HEADER
  {
    if buf[2] < 128 || buf[3] % 16 != 0 || Word16(buf, 4) != 1 then Some(DnsSpec.Failure)
    else match Compare(query, 0, buf, HEADER)
      case None => None
      case Some(false) => Some(DnsSpec.Failure)
      case Some(true) =>
        match Skip(buf, HEADER)
        case None => None
        case Some(p) =>
          Word16Range(buf, 6);
          Answers(buf, p + QUERY, Word16(buf, 6))
  }

  lemma VerdictRange(query: seq<Byte>, buf: seq<Byte>)
    requires Octets(buf) && |buf| >= HEADER
    ensures var v := VerdictOf(query, buf);
            v.Some? && v.value.Answer? ==> v.value.ttl < 0x1_0000_0000
  {
    hide Skip, Compare;
    if VerdictOf(query, buf).Some? && VerdictOf(query, buf).value.Answer? {
      var p := Skip(buf, HEADER).value;
      Word16Range(buf, 6);
      AnswersRange(buf, p + QUERY, Word16(buf, 6));
    }
  }

  lemma {:induction false} AnswersRange(buf: seq<Byte>, p: nat, n: nat)
    requires Octets(buf)
    ensures var v := Answers(buf, p, n);
            v.Some? && v.value.Answer? ==> v.value.ttl < 0x1_0000_0000
    decreases n
  {
    hide Skip, Word16;
    if n > 0 && Skip(buf, p).Some? && Skip(buf, p).value + ANSWER <= |buf| {
      var q := Skip(buf, p).value;
      Word16Range(buf, q + 4);
      Word16Range(buf, q + 6);
      AnswersRange(buf, q + ANSWER + Length(Word16(buf, q + 8)), n - 1);
    }
  }

  // The same, walking the buffer.
  method ReadMessage(query: array<Byte>, buf: array<Byte>) returns (v: DnsSpec.Verdict)
    requires Octets(buf[..]) && buf.Length >= HEADER && VerdictOf(query[..], buf[..]).Some?
    ensures VerdictOf(query[..], buf[..]) == Some(v)
  {
    hide Skip, Compare, Answers;
    if buf[2] < 128 || buf[3] % 16 != 0 || buf[4] * 256 + buf[5] != 1 { return DnsSpec.Failure; }
    var differ := CompareName(query, buf, HEADER);
    if differ != 0 { return DnsSpec.Failure; }
    var p: nat := ParseName(buf, HEADER);
    Word16Range(buf[..], 6);
    v := ReadAnswers(buf, p + QUERY, buf[6] * 256 + buf[7]);
  }

  method ReadAnswers(buf: array<Byte>, start: nat, n: nat) returns (v: DnsSpec.Verdict)
    requires Octets(buf[..]) && Answers(buf[..], start, n).Some?
    ensures Answers(buf[..], start, n) == Some(v)
  {
    hide Skip, Answers;
    ghost var b := buf[..];
    var p: nat, left: nat := start, n;
    while left > 0
      invariant Answers(b, start, n) == Answers(b, p, left)
    {
      AnswersStep(b, p, left);
      var q: nat := ParseName(buf, p);
      Word16Range(b, q + 8);
      var len: nat := buf[q + 8] * 256 + buf[q + 9];
      if buf[q] * 256 + buf[q + 1] == TYPE_A && buf[q + 2] * 256 + buf[q + 3] == CLASS_IN && len == 4 {
        v := AddressAt(buf[..], q);
        return;
      }
      p, left := q + ANSWER + len, left - 1;
    }
    AnswersEnd(b, p);
    v := DnsSpec.Failure;
  }

  lemma AnswersEnd(buf: seq<Byte>, p: nat)
    requires Octets(buf)
    ensures Answers(buf, p, 0) == Some(DnsSpec.Failure)
  {}

  predicate IsAddress(buf: seq<Byte>, q: nat)
    requires q + ANSWER <= |buf|
  {
    Word16(buf, q) == TYPE_A && Word16(buf, q + 2) == CLASS_IN && Word16(buf, q + 8) == 4
  }

  lemma AnswersStep(buf: seq<Byte>, p: nat, n: nat)
    requires Octets(buf) && n > 0 && Answers(buf, p, n).Some?
    ensures Skip(buf, p).Some?
    ensures var q := Skip(buf, p).value;
            && q + ANSWER <= |buf| && Word16(buf, q + 8) >= 0
            && (IsAddress(buf, q) ==> q + ANSWER + 4 <= |buf|)
            && Answers(buf, p, n) ==
               (if IsAddress(buf, q) then Some(AddressAt(buf, q))
                 else Answers(buf, q + ANSWER + Word16(buf, q + 8), n - 1))
  {
    hide Skip;
    if Skip(buf, p).Some? && Skip(buf, p).value + ANSWER <= |buf| { Word16Range(buf, Skip(buf, p).value + 8); }
  }

  // ---- well-formed responses -------------------------------------------------------------

  // The owner of a record: a name in full, or a pointer to one.
  datatype Owner = Full(name: seq<Byte>) | PointerTo(at: nat)
  datatype Record = Record(owner: Owner, rtype: nat, cls: nat, ttl: nat, data: seq<Byte>)

  function Bytes16(n: nat): (b: seq<Byte>)
    requires n < 0x1_0000
    ensures |b| == 2 && Octets(b) && Word16(b, 0) == n
  {
    [n / 256, n % 256]
  }

  function Bytes32(n: nat): (b: seq<Byte>)
    requires n < 0x1_0000_0000
    ensures |b| == 4 && Octets(b) && Word32(b, 0) == n
  {
    Bytes16(n / 0x1_0000) + Bytes16(n % 0x1_0000)
  }

  predicate Host(name: seq<Byte>) { Standard(name) && Octets(name) }

  predicate RecordFits(r: Record) {
    && (if r.owner.Full? then Host(r.owner.name) else r.owner.at < 0x4000)
    && r.rtype < 0x1_0000 && r.cls < 0x1_0000 && r.ttl < 0x1_0000_0000 && |r.data| < 0x1_0000 && Octets(r.data)
  }

  function OwnerBytes(o: Owner): seq<Byte> {
    if o.Full? then WireOf(o.name) else [192 + o.at / 256, o.at % 256]
  }

  function Fixed(r: Record): (b: seq<Byte>)
    requires RecordFits(r)
    ensures |b| == ANSWER
    ensures Octets(b)
  {
    Bytes16(r.rtype) + Bytes16(r.cls) + Bytes32(r.ttl) + Bytes16(|r.data|)
  }

  function RecordBytes(r: Record): seq<Byte>
    requires RecordFits(r)
  {
    OwnerBytes(r.owner) + Fixed(r) + r.data
  }

  predicate AllFit(rs: seq<Record>) { forall r :: r in rs ==> RecordFits(r) }

  function RecordsBytes(rs: seq<Record>): seq<Byte>
    requires AllFit(rs)
  {
    if rs == [] then [] else RecordBytes(rs[0]) + RecordsBytes(rs[1..])
  }

  // The first Internet address among the records.
  function FirstAddress(rs: seq<Record>): DnsSpec.Verdict
    requires AllFit(rs)
  {
    if rs == [] then DnsSpec.Failure
    else if rs[0].rtype == TYPE_A && rs[0].cls == CLASS_IN && |rs[0].data| == 4 then
      DnsSpec.Answer(rs[0].ttl, Word32(rs[0].data, 0))
    else FirstAddress(rs[1..])
  }

  lemma {:induction false} OctetsWire(ls: seq<seq<Byte>>)
    requires forall l :: l in ls ==> |l| < 256 && Octets(l)
    ensures Octets(Wire(ls))
    decreases |ls|
  {
    if ls != [] {
      assert ls[0] in ls;
      OctetsWire(ls[1..]);
    }
  }

  lemma {:induction false} OctetsLabels(name: seq<Byte>)
    requires Octets(name)
    ensures forall l :: l in Labels(name) ==> Octets(l)
    decreases |name|
  {
    var k := FirstDot(name);
    if k < |name| { OctetsLabels(name[k + 1..]); }
  }

  lemma OctetsHost(name: seq<Byte>)
    requires Host(name)
    ensures Octets(WireOf(name))
  {
    OctetsLabels(name);
    OctetsWire(Labels(name));
  }

  lemma OctetsJoin(a: seq<Byte>, b: seq<Byte>)
    requires Octets(a) && Octets(b)
    ensures Octets(a + b)
  {}

  // Where a record's owner ends, for the walk.
  lemma OwnerSkipped(before: seq<Byte>, o: Owner, after: seq<Byte>)
    requires if o.Full? then Host(o.name) else o.at < 0x4000
    ensures Octets(OwnerBytes(o))
    ensures Skip(before + OwnerBytes(o) + after, |before|) == Some(|before| + |OwnerBytes(o)|)
  {
    hide WireOf, Standard;
    if o.Full? {
      OctetsHost(o.name);
      EncodedNameRoundTrip(before, o.name, after, []);
      WireOfLength(o.name);
    } else {
      PointerIs(192 + o.at / 256);
    }
  }

  lemma Word16Inside(before: seq<Byte>, piece: seq<Byte>, after: seq<Byte>, k: nat)
    requires k + 2 <= |piece|
    ensures Word16(before + piece + after, |before| + k) == Word16(piece, k)
  {
    var buf := before + piece + after;
    assert buf[|before| + k] == piece[k] && buf[|before| + k + 1] == piece[k + 1];
  }

  lemma FixedRead(r: Record, before: seq<Byte>, after: seq<Byte>)
    requires RecordFits(r)
    ensures var buf, q := before + Fixed(r) + after, |before|;
            && Word16(buf, q) == r.rtype && Word16(buf, q + 2) == r.cls && Word32(buf, q + 4) == r.ttl
            && Word16(buf, q + 8) == |r.data|
  {
    hide Word16, Bytes16, Octets;
    var f := Fixed(r);
    var a, b, t, n := Bytes16(r.rtype), Bytes16(r.cls), Bytes32(r.ttl), Bytes16(|r.data|);
    Word16Inside([], a, b + t + n, 0);
    Word16Inside(a, b, t + n, 0);
    Word16Inside(a + b, t, n, 0);
    Word16Inside(a + b, t, n, 2);
    Word16Inside(a + b + t, n, [], 0);
    assert f == [] + a + (b + t + n) == a + b + (t + n) == (a + b) + t + n == (a + b + t) + n + [];
    Word16Inside(before, f, after, 0);
    Word16Inside(before, f, after, 2);
    Word16Inside(before, f, after, 4);
    Word16Inside(before, f, after, 6);
    Word16Inside(before, f, after, 8);
  }

  // One record: the walk stands behind it, or has found what it looks for.
  lemma AnswerRead(before: seq<Byte>, r: Record, after: seq<Byte>, n: nat)
    requires RecordFits(r) && n > 0 && Octets(before) && Octets(after)
    ensures Octets(before + RecordBytes(r) + after)
    ensures Answers(before + RecordBytes(r) + after, |before|, n) ==
      if r.rtype == TYPE_A && r.cls == CLASS_IN && |r.data| == 4 then Some(DnsSpec.Answer(r.ttl, Word32(r.data, 0)))
      else Answers(before + RecordBytes(r) + after, |before + RecordBytes(r)|, n - 1)
  {
    hide Skip, Fixed, OwnerBytes, Standard, Octets, Word16, Answers, WireOf;
    var o, f := OwnerBytes(r.owner), Fixed(r);
    OwnerSkipped(before, r.owner, f + r.data + after);
    var buf := before + RecordBytes(r) + after;
    OctetsJoin(o, f);
    OctetsJoin(o + f, r.data);
    OctetsJoin(before, RecordBytes(r));
    OctetsJoin(before + RecordBytes(r), after);
    assert buf == before + o + (f + r.data + after);
    FixedRead(r, before + o, r.data + after);
    assert buf == (before + o) + f + (r.data + after);
    if |r.data| == 4 {
      Word16Inside(before + o + f, r.data, after, 0);
      Word16Inside(before + o + f, r.data, after, 2);
      assert buf == (before + o + f) + r.data + after;
    }
    AnswerAt(buf, |before|, |before + o|, n);
  }

  lemma AnswerAt(buf: seq<Byte>, p: nat, q: nat, n: nat)
    requires Octets(buf) && n > 0 && Skip(buf, p) == Some(q) && q + ANSWER <= |buf|
    requires IsAddress(buf, q) ==> q + ANSWER + 4 <= |buf|
    ensures Word16(buf, q + 8) >= 0
    ensures Answers(buf, p, n) ==
      if IsAddress(buf, q) then Some(AddressAt(buf, q)) else Answers(buf, q + ANSWER + Word16(buf, q + 8), n - 1)
  {
    hide Skip;
    Word16Range(buf, q + 8);
  }

  lemma {:induction false} AnswersRead(before: seq<Byte>, rs: seq<Record>, after: seq<Byte>)
    requires AllFit(rs) && Octets(before) && Octets(after)
    ensures Octets(before + RecordsBytes(rs) + after)
    ensures Answers(before + RecordsBytes(rs) + after, |before|, |rs|) == Some(FirstAddress(rs))
    decreases |rs|
  {
    hide Answers, RecordBytes, Octets, RecordFits;
    if rs == [] {
      NoAnswers(before, after);
      assert before + RecordsBytes(rs) + after == before + after;
    } else {
      var r, rest := rs[0], rs[1..];
      assert r in rs;
      OctetsRecord(r);
      OctetsJoin(before, RecordBytes(r));
      AnswersRead(before + RecordBytes(r), rest, after);
      OctetsRecords(rest);
      OctetsJoin(RecordsBytes(rest), after);
      AnswerRead(before, r, RecordsBytes(rest) + after, |rs|);
      assert before + RecordsBytes(rs) + after == before + RecordBytes(r) + (RecordsBytes(rest) + after)
          == (before + RecordBytes(r)) + RecordsBytes(rest) + after;
    }
  }

  lemma NoAnswers(before: seq<Byte>, after: seq<Byte>)
    requires Octets(before) && Octets(after)
    ensures Octets(before + after) && Answers(before + after, |before|, 0) == Some(DnsSpec.Failure)
  {}

  lemma OctetsRecord(r: Record)
    requires RecordFits(r)
    ensures Octets(RecordBytes(r))
  {
    hide WireOf, Standard;
    OwnerSkipped([], r.owner, []);
  }

  lemma NoOctets()
    ensures Octets([])
  {}

  lemma {:induction false} OctetsRecords(rs: seq<Record>)
    requires AllFit(rs)
    ensures Octets(RecordsBytes(rs))
    decreases |rs|
  {
    hide RecordBytes, RecordFits, Octets;
    if rs == [] {
      NoOctets();
    } else {
      OctetsRecords(rs[1..]);
      OctetsRecord(rs[0]);
      OctetsJoin(RecordBytes(rs[0]), RecordsBytes(rs[1..]));
    }
  }

  predicate ResponseHeader(h: seq<Byte>, answers: nat) {
    |h| == HEADER && Octets(h) && h[2] >= 128 && h[3] % 16 == 0 && Word16(h, 4) == 1 && Word16(h, 6) == answers
  }

  lemma VerdictSteps(query: seq<Byte>, buf: seq<Byte>, p: nat)
    requires Octets(buf) && |buf| >= HEADER && buf[2] >= 128 && buf[3] % 16 == 0 && Word16(buf, 4) == 1
    requires Compare(query, 0, buf, HEADER) == Some(true) && Skip(buf, HEADER) == Some(p)
    ensures Word16(buf, 6) >= 0 && VerdictOf(query, buf) == Answers(buf, p + QUERY, Word16(buf, 6))
  {
    hide Skip, Compare, Answers;
    Word16Range(buf, 6);
  }

  // A response without error to the name asked for, with any records after the question and
  // anything after them, amounts to the first Internet address among the records, or to a failure
  // if there is none.
  lemma ResponseIsRead(h: seq<Byte>, name: seq<Byte>, tail: seq<Byte>, rs: seq<Record>, after: seq<Byte>,
      stale: seq<Byte>)
    requires Host(name) && AllFit(rs) && ResponseHeader(h, |rs|) && |tail| == QUERY && Octets(tail) && Octets(after)
    ensures var buf := h + WireOf(name) + tail + RecordsBytes(rs) + after;
            Octets(buf) && VerdictOf(name + [0] + stale, buf) == Some(FirstAddress(rs))
  {
    hide Skip, Compare, Answers, RecordsBytes, WireOf, Standard, FirstAddress, VerdictOf, Octets, Word16,
      Decode, Labels,
      Join;
    var head := h + WireOf(name) + tail;
    var rest := tail + RecordsBytes(rs) + after;
    var buf := head + RecordsBytes(rs) + after;
    OctetsHead(h, name, tail);
    AnswersRead(head, rs, after);
    EncodedNameRoundTrip(h, name, rest, [0] + stale);
    WireOfLength(name);
    Regrouped(h, WireOf(name), tail, RecordsBytes(rs), after);
    assert name + [0] + stale == name + ([0] + stale);
    HeaderRead(h, |rs|, WireOf(name) + rest);
    VerdictSteps(name + [0] + stale, buf, HEADER + |WireOf(name)|);
  }

  lemma Regrouped(a: seq<Byte>, b: seq<Byte>, c: seq<Byte>, d: seq<Byte>, e: seq<Byte>)
    ensures a + b + c + d + e == a + b + (c + d + e) == a + (b + (c + d + e))
  {}

  lemma OctetsHead(h: seq<Byte>, name: seq<Byte>, tail: seq<Byte>)
    requires Host(name) && Octets(h) && Octets(tail)
    ensures Octets(h + WireOf(name) + tail)
  {
    hide WireOf, Octets, Standard;
    OctetsHost(name);
    OctetsJoin(h, WireOf(name));
    OctetsJoin(h + WireOf(name), tail);
  }

  lemma HeaderRead(h: seq<Byte>, answers: nat, rest: seq<Byte>)
    requires ResponseHeader(h, answers)
    ensures var buf := h + rest;
            buf[2] >= 128 && buf[3] % 16 == 0 && Word16(buf, 4) == 1 && Word16(buf, 6) == answers
  {
    Word16Inside([], h, rest, 4);
    Word16Inside([], h, rest, 6);
    assert h + rest == [] + h + rest;
  }

  // A message is a failure if its response bit is clear, its error code not 0, its questions not one
  // or the name in the question not accepted; and otherwise what its records say.
  lemma Refused(query: seq<Byte>, buf: seq<Byte>)
    requires Octets(buf) && |buf| >= HEADER
    ensures buf[2] / 128 % 2 == 0 || buf[3] % 16 != 0 || Word16(buf, 4) != 1 ==>
      VerdictOf(query, buf) == Some(DnsSpec.Failure)
    ensures Compare(query, 0, buf, HEADER) == Some(false) ==> VerdictOf(query, buf) == Some(DnsSpec.Failure)
    ensures var v := VerdictOf(query, buf);
            v.Some? && v.value.Answer? ==>
              && buf[2] / 128 % 2 == 1 && buf[3] % 16 == 0 && Word16(buf, 4) == 1
              && Compare(query, 0, buf, HEADER) == Some(true)
              && exists q :: AnswerStands(buf, q, v.value)
  {
    hide Compare, Skip, Answers;
    var v := VerdictOf(query, buf);
    if v.Some? && v.value.Answer? {
      Word16Range(buf, 6);
      var q := AnswerFound(buf, Skip(buf, HEADER).value + QUERY, Word16(buf, 6));
    }
  }

  // An address record for the Internet, of four bytes, with this time to live and address.
  predicate AnswerStands(buf: seq<Byte>, q: nat, v: DnsSpec.Verdict) {
    && q + ANSWER + 4 <= |buf| && v.Answer?
    && Word16(buf, q) == 1 && Word16(buf, q + 2) == 1 && Word16(buf, q + 8) == 4
    && v.ttl == Word32(buf, q + 4) && v.addr == Word32(buf, q + 10)
  }

  lemma {:induction false} AnswerFound(buf: seq<Byte>, p: nat, n: nat) returns (q: nat)
    requires Octets(buf) && Answers(buf, p, n).Some? && Answers(buf, p, n).value.Answer?
    ensures AnswerStands(buf, q, Answers(buf, p, n).value)
    decreases n
  {
    hide Answers, Skip;
    if n == 0 { AnswersEnd(buf, p); } else { AnswersStep(buf, p, n); }
    q := Skip(buf, p).value;
    if !IsAddress(buf, q) { q := AnswerFound(buf, q + ANSWER + Word16(buf, q + 8), n - 1); }
  }
}
