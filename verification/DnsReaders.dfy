// The two readers of encoded names, and what they do with a name the encoder wrote.
module DnsReaders {
  import opened Wrappers
  import opened DnsNames

  // The two top bits are set: a compression pointer (section 4.1.4 of RFC 1035).
  predicate Pointer(n: Byte) { n / 64 % 4 == 3 }

  lemma PointerIs(n: Byte)
    requires 0 <= n < 256
    ensures Pointer(n) <==> n >= 192
  {}

  function Length(n: Byte): nat { if n < 0 then 0 else n }

  // ---- walking past a name ---------------------------------------------------------------

  // Where the walk from p ends; nothing if it runs out of the buffer.
  function Skip(buf: seq<Byte>, p: nat): (r: Option<nat>)
    ensures r.Some? ==> p < r.value
    decreases |buf| - p
  {
    if p >= |buf| then None
    else if Pointer(buf[p]) then Some(p + 2)
    else
      var q := p + 1 + Length(buf[p]);
      if q >= |buf| then None else if buf[q] == 0 then Some(q + 1) else Skip(buf, q)
  }

  method ParseName(buf: array<Byte>, start: nat) returns (end: nat)
    requires Skip(buf[..], start).Some?
    ensures Some(end) == Skip(buf[..], start)
  {
    var query := start;
    var more := true;
    while more
      invariant query < buf.Length + 1
      invariant if more then Skip(buf[..], query) == Skip(buf[..], start) else Some(query + 1) == Skip(buf[..], start)
      decreases buf.Length - query, more
    {
      var n := buf[query];
      ghost var at := query;
      query := query + 1;
      if Pointer(n) {
        more := false;
      } else {
        while n > 0
          invariant Length(buf[at]) == query - at - 1 + Length(n)
          decreases n
        {
          query := query + 1;
          n := n - 1;
        }
        more := buf[query] != 0;
      }
    }
    end := query + 1;
  }

  // Every label is short enough not to look like a pointer and, after the first, not empty.
  predicate Regular(ls: seq<seq<Byte>>)
    requires ls != []
  {
    |ls[0]| < 192 && (|ls| > 1 ==> ls[1] != [] && Regular(ls[1..]))
  }

  predicate Bytes(ls: seq<seq<Byte>>) { forall l :: l in ls ==> |l| < 256 }

  // The encoding stands in the buffer at p, label after label.
  predicate Holds(buf: seq<Byte>, p: nat, ls: seq<seq<Byte>>)
    decreases |ls|
  {
    if ls == [] then p < |buf| && buf[p] == 0
    else
      var q := p + 1 + |ls[0]|;
      q <= |buf| && buf[p] == |ls[0]| && buf[p + 1..q] == ls[0] && Holds(buf, q, ls[1..])
  }

  function Size(ls: seq<seq<Byte>>): (n: nat)
    ensures n > 0
  {
    if ls == [] then 1 else 1 + |ls[0]| + Size(ls[1..])
  }

  lemma {:induction false} SizeOfWire(ls: seq<seq<Byte>>)
    ensures Size(ls) == |Wire(ls)| && (ls != [] ==> Size(ls) == |Join(ls)| + 2)
    decreases |ls|
  {
    if ls != [] {
      SizeOfWire(ls[1..]);
      WireLength(ls);
    }
  }

  // That is: the bytes from p on are those the encoder writes.
  lemma {:induction false} HoldsWire(before: seq<Byte>, after: seq<Byte>, ls: seq<seq<Byte>>)
    ensures Holds(before + Wire(ls) + after, |before|, ls)
    decreases |ls|
  {
    var buf := before + Wire(ls) + after;
    if ls == [] {
      assert Wire(ls) == [0];
    } else {
      var head := [|ls[0]|] + ls[0];
      assert Wire(ls) == head + Wire(ls[1..]);
      assert buf == (before + head) + Wire(ls[1..]) + after;
      HoldsWire(before + head, after, ls[1..]);
      assert buf[|before|..|before| + |head|] == head;
      assert buf[|before|] == head[0] && buf[|before| + 1..|before| + |head|] == head[1..];
    }
  }

  lemma HeadAt(buf: seq<Byte>, p: nat, ls: seq<seq<Byte>>)
    requires Holds(buf, p, ls)
    ensures p < |buf| && buf[p] == if ls == [] then 0 else |ls[0]|
  {}

  // The walk ends exactly after an encoded name if and only if its labels are regular;
  // otherwise it stops inside it.
  lemma {:induction false} SkipExact(buf: seq<Byte>, p: nat, ls: seq<seq<Byte>>)
    requires ls != [] && Bytes(ls) && Holds(buf, p, ls)
    ensures Skip(buf, p).Some? && Skip(buf, p).value <= p + Size(ls)
    ensures Skip(buf, p) == Some(p + Size(ls)) <==> Regular(ls)
    decreases |ls|
  {
    hide Pointer;
    assert ls[0] in ls;
    PointerIs(|ls[0]|);
    HeadAt(buf, p + 1 + |ls[0]|, ls[1..]);
    if |ls| > 1 {
      assert ls[1] in ls;
      SkipExact(buf, p + 1 + |ls[0]|, ls[1..]);
    }
  }

  // Names of non-empty labels of at most 63 bytes, as the standard has them.
  predicate Standard(name: seq<Byte>) {
    IsName(name) && forall l :: l in Labels(name) ==> 0 < |l| <= 63
  }

  lemma {:induction false} AllRegular(ls: seq<seq<Byte>>)
    requires ls != [] && forall l :: l in ls ==> 0 < |l| <= 63
    ensures Regular(ls)
    decreases |ls|
  {
    assert ls[0] in ls;
    if |ls| > 1 {
      assert ls[1] in ls;
      AllRegular(ls[1..]);
    }
  }

  lemma SkipsItsOwn(buf: seq<Byte>, p: nat, name: seq<Byte>)
    requires Standard(name) && Holds(buf, p, Labels(name))
    ensures Skip(buf, p) == Some(p + |name| + 2)
  {
    hide Labels, Holds, Skip, Join, Regular;
    AllRegular(Labels(name));
    LabelsJoin(name);
    SizeOfWire(Labels(name));
    SkipExact(buf, p, Labels(name));
  }

  // ---- decoding --------------------------------------------------------------------------

  // The labels of an uncompressed name and the place after it, as section 3.1 of RFC 1035
  // defines them.
  function Decode(buf: seq<Byte>, p: nat): Option<(seq<seq<Byte>>, nat)>
    decreases |buf| - p
  {
    if p >= |buf| || Pointer(buf[p]) || buf[p] < 0 then None
    else if buf[p] == 0 then Some(([], p + 1))
    else
      var q := p + 1 + buf[p];
      if q > |buf| then None
      else match Decode(buf, q)
        case None => None
        case Some((ls, end)) => Some(([buf[p + 1..q]] + ls, end))
  }

  lemma DecodeStep(buf: seq<Byte>, p: nat, q: nat)
    requires p < |buf| && 0 < buf[p] < 192 && q == p + 1 + buf[p] <= |buf| && Decode(buf, q).Some?
    ensures Decode(buf, p) == Some(([buf[p + 1..q]] + Decode(buf, q).value.0, Decode(buf, q).value.1))
  {
    hide Pointer;
    PointerIs(buf[p]);
  }

  lemma DecodeEnd(buf: seq<Byte>, p: nat)
    requires p < |buf| && buf[p] == 0
    ensures Decode(buf, p) == Some(([], p + 1))
  {}

  lemma {:induction false} DecodeWire(buf: seq<Byte>, p: nat, ls: seq<seq<Byte>>)
    requires (forall l :: l in ls ==> 0 < |l| < 192) && Holds(buf, p, ls)
    ensures Decode(buf, p) == Some((ls, p + Size(ls)))
    decreases |ls|
  {
    hide Decode;
    if ls == [] {
      DecodeEnd(buf, p);
    } else {
      var q := p + 1 + |ls[0]|;
      assert ls[0] in ls;
      DecodeWire(buf, q, ls[1..]);
      DecodeStep(buf, p, q);
      assert [ls[0]] + ls[1..] == ls;
    }
  }

  lemma DecodesBack(buf: seq<Byte>, p: nat, name: seq<Byte>)
    requires Standard(name) && Holds(buf, p, Labels(name))
    ensures Decode(buf, p) == Some((Labels(name), p + |name| + 2)) && Join(Labels(name)) == name
  {
    hide Labels, Holds, Decode, Join;
    LabelsJoin(name);
    SizeOfWire(Labels(name));
    DecodeWire(buf, p, Labels(name));
  }

  // Where a name ends, compressed or not, as sections 3.1 and 4.1.4 of RFC 1035 define it: after its
  // zero byte, or after the pointer that takes its place.
  function NameEnd(buf: seq<Byte>, p: nat): Option<nat>
    decreases |buf| - p
  {
    if p >= |buf| || buf[p] < 0 then None
    else if Pointer(buf[p]) then if p + 1 < |buf| then Some(p + 2) else None
    else if buf[p] == 0 then Some(p + 1)
    else NameEnd(buf, p + 1 + buf[p])
  }

  lemma {:induction false} DecodeEnds(buf: seq<Byte>, p: nat)
    requires Decode(buf, p).Some?
    ensures NameEnd(buf, p) == Some(Decode(buf, p).value.1)
    decreases |buf| - p
  {
    if buf[p] != 0 { DecodeEnds(buf, p + 1 + buf[p]); }
  }

  // The walk finds the end of every name but the root, which is a single zero byte.
  lemma {:induction false} SkipIsNameEnd(buf: seq<Byte>, p: nat)
    requires NameEnd(buf, p).Some?
    ensures Skip(buf, p) == NameEnd(buf, p) <==> buf[p] != 0
    decreases |buf| - p
  {
    if !Pointer(buf[p]) && buf[p] != 0 { SkipIsNameEnd(buf, p + 1 + buf[p]); }
  }

  // In particular it follows the decoder exactly on names of at least one label.
  lemma SkipFollowsDecode(buf: seq<Byte>, p: nat)
    requires Decode(buf, p).Some?
    ensures Skip(buf, p) == Some(Decode(buf, p).value.1) <==> Decode(buf, p).value.0 != []
  {
    DecodeEnds(buf, p);
    SkipIsNameEnd(buf, p);
  }

  // The root name at 0 is taken for the first byte of a longer one.
  lemma SkipMissesRoot() returns (buf: seq<Byte>)
    ensures Decode(buf, 0) == Some(([], 1)) && Skip(buf, 0) == Some(4)
  {
    buf := [0, 1, 97, 0];
    assert Skip(buf, 1) == Some(4);
  }

  // Two host names whose wire form the walk does not get past: one with an empty label, one with a
  // label long enough to look like a pointer.
  lemma SkipStopsInside() returns (empty: seq<Byte>, long: seq<Byte>)
    ensures IsName(empty) && IsName(long) && |WireOf(empty)| == 6 && |WireOf(long)| == 194
    ensures Skip(WireOf(empty), 0) == Some(3) && Skip(WireOf(long), 0) == Some(2)
  {
    empty, long := [97, DOT, DOT, 98], seq(192, _ => 97);
    FirstDotIs(empty, 1);
    FirstDotIs(empty[2..], 0);
    FirstDotIs(empty[3..], 1);
    WireStep(empty);
    WireStep(empty[2..]);
    WireOfLength(empty);
    FirstDotIs(long, 192);
    WireStep(long);
    WireOfLength(long);
    PointerIs(192);
    assert WireOf(empty)[..3] == [1, 97, 0];
  }

  // ---- comparing -------------------------------------------------------------------------

  // n bytes of both are the same; nothing if one of them runs out before they differ.
  function SameBytes(query: seq<Byte>, qi: nat, buf: seq<Byte>, p: nat, n: nat): Option<bool>
    decreases n
  {
    if n == 0 then Some(true)
    else if qi >= |query| || p >= |buf| then None
    else if query[qi] != buf[p] then Some(false)
    else SameBytes(query, qi + 1, buf, p + 1, n - 1)
  }

  // Is the dotted query taken for the encoded name at p?
  function Compare(query: seq<Byte>, qi: nat, buf: seq<Byte>, p: nat): Option<bool>
    decreases |buf| - p
  {
    if p >= |buf| then None
    else if Pointer(buf[p]) then Some(true)
    else
      var n := Length(buf[p]);
      match SameBytes(query, qi, buf, p + 1, n)
      case None => None
      case Some(false) => Some(false)
      case Some(true) =>
        if p + 1 + n >= |buf| then None
        else if buf[p + 1 + n] == 0 then Some(true)
        else Compare(query, qi + n + 1, buf, p + 1 + n)
  }

  // The result is 0 for equal and 1 for different, as the program has it.
  method CompareName(query: array<Byte>, response: array<Byte>, start: nat) returns (differ: int)
    requires Compare(query[..], 0, response[..], start).Some?
    ensures Compare(query[..], 0, response[..], start) == Some(differ == 0) && (differ == 0 || differ == 1)
  {
    var qi, p := 0, start;
    var more := true;
    while more
      invariant if more then Compare(query[..], qi, response[..], p) == Compare(query[..], 0, response[..], start)
                else Compare(query[..], 0, response[..], start) == Some(true)
      decreases response.Length - p, more
    {
      var n := response[p];
      ghost var qi0, p0 := qi, p;
      p := p + 1;
      if Pointer(n) {
        more := false;
      } else {
        while n > 0
          invariant p == p0 + 1 + Length(response[p0]) - Length(n) && qi == qi0 + p - p0 - 1
          invariant SameBytes(query[..], qi, response[..], p, Length(n)) ==
                    SameBytes(query[..], qi0, response[..], p0 + 1, Length(response[p0]))
          decreases n
        {
          if query[qi] != response[p] { return 1; }
          p, qi, n := p + 1, qi + 1, n - 1;
        }
        qi := qi + 1;
        more := response[p] != 0;
      }
    }
    differ := 0;
  }

  // The query has the bytes of every label where that label would stand.
  predicate Matches(query: seq<Byte>, qi: nat, ls: seq<seq<Byte>>)
    decreases |ls|
  {
    ls == [] ||
    (qi + |ls[0]| <= |query| && query[qi..qi + |ls[0]|] == ls[0] && Matches(query, qi + |ls[0]| + 1, ls[1..]))
  }

  lemma {:induction false} SameBytesExact(query: seq<Byte>, qi: nat, buf: seq<Byte>, p: nat, n: nat)
    requires qi + n <= |query| && p + n <= |buf|
    ensures SameBytes(query, qi, buf, p, n) == Some(query[qi..qi + n] == buf[p..p + n])
    decreases n
  {
    if n > 0 {
      SameBytesExact(query, qi + 1, buf, p + 1, n - 1);
      assert query[qi..qi + n] == [query[qi]] + query[qi + 1..qi + n];
      assert buf[p..p + n] == [buf[p]] + buf[p + 1..p + n];
    }
  }

  lemma CompareStep(query: seq<Byte>, qi: nat, buf: seq<Byte>, p: nat, q: nat)
    requires p < q < |buf| && q == p + 1 + buf[p] && buf[p] < 192 && qi + buf[p] <= |query|
    ensures Compare(query, qi, buf, p) ==
      if query[qi..qi + buf[p]] != buf[p + 1..q] then Some(false)
      else if buf[q] == 0 then Some(true)
      else Compare(query, qi + buf[p] + 1, buf, q)
  {
    hide Pointer, SameBytes;
    PointerIs(buf[p]);
    SameBytesExact(query, qi, buf, p + 1, buf[p]);
  }

  // For an encoded name of regular labels the comparison looks at the labels and at nothing
  // between them or after them.
  lemma {:induction false} CompareExact(query: seq<Byte>, qi: nat, buf: seq<Byte>, p: nat, ls: seq<seq<Byte>>)
    requires ls != [] && Bytes(ls) && Regular(ls) && Holds(buf, p, ls)
    requires qi + |Join(ls)| <= |query|
    ensures Compare(query, qi, buf, p) == Some(Matches(query, qi, ls))
    decreases |ls|
  {
    hide Compare, Bytes, Join, Holds;
    var l, q := ls[0], p + 1 + |ls[0]|;
    HoldsNext(buf, p, ls);
    HeadAt(buf, q, ls[1..]);
    JoinSize(ls);
    CompareStep(query, qi, buf, p, q);
    if |ls| > 1 {
      BytesTail(ls);
      CompareExact(query, qi + |l| + 1, buf, q, ls[1..]);
    } else {
      assert ls[1..] == [];
    }
  }

  lemma HoldsNext(buf: seq<Byte>, p: nat, ls: seq<seq<Byte>>)
    requires ls != [] && Holds(buf, p, ls)
    ensures var q := p + 1 + |ls[0]|;
            p < |buf| && q <= |buf| && buf[p] == |ls[0]| && buf[p + 1..q] == ls[0] && Holds(buf, q, ls[1..])
  {}

  lemma JoinSize(ls: seq<seq<Byte>>)
    requires ls != []
    ensures |Join(ls)| == |ls[0]| + if |ls| > 1 then 1 + |Join(ls[1..])| else 0
  {}

  lemma BytesTail(ls: seq<seq<Byte>>)
    requires ls != [] && Bytes(ls)
    ensures Bytes(ls[1..])
  {
    forall l | l in ls[1..] ensures |l| < 256 { assert l in ls; }
  }

  // The separators of the encoded name, and its end, are where the name has them.
  predicate SameShape(name: seq<Byte>, ls: seq<seq<Byte>>)
    requires ls != []
    decreases |ls|
  {
    if |ls| == 1 then |name| == |ls[0]|
    else |ls[0]| < |name| && name[|ls[0]|] == DOT && SameShape(name[|ls[0]| + 1..], ls[1..])
  }

  lemma {:induction false} MatchesShifted(query: seq<Byte>, k: nat, qi: nat, ls: seq<seq<Byte>>)
    requires k <= |query|
    ensures Matches(query, k + qi, ls) == Matches(query[k..], qi, ls)
    decreases |ls|
  {
    if ls != [] {
      if k + qi + |ls[0]| <= |query| {
        assert query[k..][qi..qi + |ls[0]|] == query[k + qi..k + qi + |ls[0]|];
      }
      MatchesShifted(query, k, qi + |ls[0]| + 1, ls[1..]);
    }
  }

  lemma {:induction false} MatchesIsEqual(name: seq<Byte>, rest: seq<Byte>, ls: seq<seq<Byte>>)
    requires ls != [] && SameShape(name, ls)
    ensures Matches(name + rest, 0, ls) <==> name == Join(ls)
    decreases |ls|
  {
    var k := |ls[0]|;
    assert (name + rest)[0..k] == name[..k];
    if |ls| == 1 {
      assert ls[1..] == [];
      assert name[..k] == name;
    } else {
      MatchesShifted(name + rest, k + 1, 0, ls[1..]);
      assert (name + rest)[k + 1..] == name[k + 1..] + rest;
      MatchesIsEqual(name[k + 1..], rest, ls[1..]);
      assert name == name[..k] + [DOT] + name[k + 1..];
      var j := ls[0] + [DOT] + Join(ls[1..]);
      assert j[..k] == ls[0] && j[k + 1..] == Join(ls[1..]);
    }
  }

  lemma {:induction false} EqualHasShape(ls: seq<seq<Byte>>)
    requires ls != []
    ensures SameShape(Join(ls), ls)
    decreases |ls|
  {
    if |ls| > 1 {
      EqualHasShape(ls[1..]);
      assert (ls[0] + [DOT] + Join(ls[1..]))[|ls[0]| + 1..] == Join(ls[1..]);
    }
  }

  // A response that is accepted carries the name asked for exactly when the two agree on where
  // the separators and the end are, which the comparison does not look at.
  lemma AcceptedIsEqual(name: seq<Byte>, rest: seq<Byte>, buf: seq<Byte>, p: nat, ls: seq<seq<Byte>>)
    requires ls != [] && Bytes(ls) && Regular(ls) && Holds(buf, p, ls) && |Join(ls)| <= |name + rest|
    ensures name == Join(ls) <==> Compare(name + rest, 0, buf, p) == Some(true) && SameShape(name, ls)
  {
    CompareExact(name + rest, 0, buf, p, ls);
    if SameShape(name, ls) { MatchesIsEqual(name, rest, ls); }
    EqualHasShape(ls);
  }

  lemma AcceptsItsOwn(name: seq<Byte>, rest: seq<Byte>, buf: seq<Byte>, p: nat)
    requires Standard(name) && Holds(buf, p, Labels(name))
    ensures Compare(name + rest, 0, buf, p) == Some(true)
  {
    hide Labels, Holds, Join, Regular, Compare;
    LabelsJoin(name);
    AllRegular(Labels(name));
    AcceptedIsEqual(name, rest, buf, p, Labels(name));
  }

  // "ab" is asked for, "a" is answered, and taken for it.
  lemma AcceptsAnother() returns (name: seq<Byte>, buf: seq<Byte>)
    ensures Standard(name) && Standard([97]) && name != [97]
    ensures Holds(buf, 0, Labels([97])) && Compare(name + [0], 0, buf, 0) == Some(true)
  {
    name, buf := [97, 98], [1, 97, 0];
    FirstDotIs([97], 1);
    FirstDotIs(name, 2);
    assert Labels([97]) == [[97]] && Labels(name) == [name];
    assert [[97]][1..] == [];
    assert SameBytes(name + [0], 0, buf, 1, 1) == Some(true);
  }

  // All of it for a standard name wherever the encoder put it: both readers take exactly its
  // length plus two bytes, the name it was made from is accepted, and decoding gives it back.
  lemma EncodedNameRoundTrip(before: seq<Byte>, name: seq<Byte>, after: seq<Byte>, rest: seq<Byte>)
    requires Standard(name)
    ensures var buf := before + WireOf(name) + after;
            && Skip(buf, |before|) == Some(|before| + |name| + 2)
            && Compare(name + rest, 0, buf, |before|) == Some(true)
            && Decode(buf, |before|) == Some((Labels(name), |before| + |name| + 2)) && Join(Labels(name)) == name
  {
    hide Labels, Skip, Compare, Decode, Standard, Holds;
    var buf := before + WireOf(name) + after;
    HoldsWire(before, after, Labels(name));
    SkipsItsOwn(buf, |before|, name);
    AcceptsItsOwn(name, rest, buf, |before|);
    DecodesBack(buf, |before|, name);
  }
}
