// Domain names as dotted strings and as length-prefixed labels (section 3.1 of RFC 1035), and the
// loop that writes the one form for the other.
module DnsNames {
  // Characters and bytes alike; nothing below depends on their range.
  type Byte = int
  const DOT := 46

  // ---- names, labels and their wire form -------------------------------------------------

  predicate IsName(s: seq<Byte>) { 0 !in s && |s| < 256 }

  function FirstDot(s: seq<Byte>): (k: nat)
    ensures k <= |s| && DOT !in s[..k] && (k < |s| ==> s[k] == DOT)
  {
    if s == [] || s[0] == DOT then 0
    else
      var k := FirstDot(s[1..]);
      assert s[..k + 1] == [s[0]] + s[1..][..k];
      k + 1
  }

  function Labels(s: seq<Byte>): (ls: seq<seq<Byte>>)
    ensures ls != []
    decreases |s|
  {
    var k := FirstDot(s);
    if k == |s| then [s] else [s[..k]] + Labels(s[k + 1..])
  }

  function Join(ls: seq<seq<Byte>>): seq<Byte> {
    if ls == [] then [] else if |ls| == 1 then ls[0] else ls[0] + [DOT] + Join(ls[1..])
  }

  function Wire(ls: seq<seq<Byte>>): seq<Byte> {
    if ls == [] then [0] else [|ls[0]|] + ls[0] + Wire(ls[1..])
  }

  lemma {:induction false} LabelsJoin(s: seq<Byte>)
    ensures Join(Labels(s)) == s
    ensures forall l :: l in Labels(s) ==> |l| <= |s| && DOT !in l
    decreases |s|
  {
    var k := FirstDot(s);
    if k < |s| {
      LabelsJoin(s[k + 1..]);
      assert s == s[..k] + [DOT] + s[k + 1..];
      var rest := Labels(s[k + 1..]);
      assert Labels(s)[1..] == rest;
    } else {
      assert s[..k] == s;
    }
  }

  lemma {:induction false} JoinLabels(ls: seq<seq<Byte>>)
    requires ls != [] && forall l :: l in ls ==> DOT !in l
    ensures Labels(Join(ls)) == ls
    decreases |ls|
  {
    var s := Join(ls);
    assert ls[0] in ls && s[..|ls[0]|] == ls[0];
    if |ls| == 1 {
      FirstDotIs(s, |s|);
    } else {
      FirstDotIs(s, |ls[0]|);
      assert s[..|ls[0]|] == ls[0] && s[|ls[0]| + 1..] == Join(ls[1..]);
      JoinLabels(ls[1..]);
    }
  }

  lemma {:induction false} FirstDotIs(s: seq<Byte>, k: nat)
    requires k <= |s| && DOT !in s[..k] && (k < |s| ==> s[k] == DOT)
    ensures FirstDot(s) == k
  {
    if k > 0 {
      assert s[..k][0] == s[0];
      assert s[1..][..k - 1] == s[..k][1..];
      FirstDotIs(s[1..], k - 1);
    }
  }

  // The wire form is two bytes longer than the name.
  lemma {:induction false} WireLength(ls: seq<seq<Byte>>)
    requires ls != []
    ensures |Wire(ls)| == |Join(ls)| + 2
  {
    if |ls| > 1 {
      WireLength(ls[1..]);
    } else {
      assert Wire(ls[1..]) == [0];
    }
  }

  function WireOf(name: seq<Byte>): seq<Byte> { Wire(Labels(name)) }

  lemma WireOfLength(name: seq<Byte>)
    ensures |WireOf(name)| == |name| + 2
  {
    LabelsJoin(name);
    WireLength(Labels(name));
  }

  // ---- the encoder -----------------------------------------------------------------------

  lemma WireCons(l: seq<Byte>, ls: seq<seq<Byte>>)
    ensures Wire([l] + ls) == [|l|] + l + Wire(ls)
  {
    assert ([l] + ls)[1..] == ls;
  }

  lemma WireStep(s: seq<Byte>)
    ensures var k := FirstDot(s);
            WireOf(s) == [k] + s[..k] + (if k < |s| then WireOf(s[k + 1..]) else [0])
  {
    hide FirstDot, Wire;
    var k := FirstDot(s);
    if k == |s| {
      assert s[..k] == s;
      assert [s] + [] == [s];
      WireCons(s, []);
      WireNone();
    } else {
      WireCons(s[..k], Labels(s[k + 1..]));
    }
  }

  lemma WireNone()
    ensures Wire([]) == [0]
  {}

  // str is the host name with its terminating zero; the bytes go to out from at on.
  method Encode(str: seq<Byte>, out: array<Byte>, at: nat) returns (end: nat)
    requires str != [] && str[|str| - 1] == 0 && IsName(str[..|str| - 1])
    requires at + |str| + 1 <= out.Length
    modifies out
    ensures end == at + |str| + 1
    ensures out[..end] == old(out[..at]) + WireOf(str[..|str| - 1])
    ensures out[end..] == old(out[end..])
  {
    hide WireOf, FirstDot, IsName;
    ghost var name, start := str[..|str| - 1], out[..at];
    ghost var done, tail := start, WireOf(name);
    var h, q := 0, at;
    var more := true;
    WireOfLength(name);
    assert name[0..] == name;
    while more
      invariant if more then h <= |name| && q == at + h else h == |str| && q == at + |name| + 1
      invariant out[at + |str| + 1..] == old(out[at + |str| + 1..])
      invariant out[..q] == done && done + tail == start + WireOf(name)
      invariant tail == if more then WireOf(name[h..]) else [0]
      decreases |str| - h
    {
      ghost var piece;
      piece, tail := Split(name, h, done, tail);
      ghost var before := out[..];
      var n := EncodeLabel(str, h, out, q);
      Grown(before, out[..], q, piece, at + |str| + 1);
      done := done + piece;
      q := q + n + 1;
      more := str[h + n] != 0;
      h := h + n + 1;
    }
    out[q] := 0;
    end := q + 1;
    assert out[..end] == out[..q] + [0];
  }

  lemma Grown(a: seq<Byte>, b: seq<Byte>, q: nat, piece: seq<Byte>, end: nat)
    requires |a| == |b| && q + |piece| <= end <= |a|
    requires b[..q] == a[..q] && b[q..q + |piece|] == piece && b[q + |piece|..] == a[q + |piece|..]
    ensures b[..q + |piece|] == a[..q] + piece && b[end..] == a[end..]
  {
    assert b[end..] == b[q + |piece|..][end - (q + |piece|)..];
  }

  // The bytes of the label at h, and those of the labels after it.
  lemma Split(name: seq<Byte>, h: nat, done: seq<Byte>, tail: seq<Byte>) returns (piece: seq<Byte>, next: seq<Byte>)
    requires h <= |name| && tail == WireOf(name[h..])
    ensures var n := FirstDot(name[h..]);
            && h + n <= |name| && piece == [n] + name[h..h + n]
            && next == (if h + n < |name| then WireOf(name[h + n + 1..]) else [0])
    ensures done + tail == (done + piece) + next
  {
    hide WireOf, FirstDot;
    var rest := name[h..];
    var n := FirstDot(rest);
    WireStep(rest);
    assert rest[..n] == name[h..h + n];
    if n < |rest| { assert rest[n + 1..] == name[h + n + 1..]; }
    piece := [n] + rest[..n];
    next := if n < |rest| then WireOf(rest[n + 1..]) else [0];
  }

  // One label and the byte holding its length before it.
  method EncodeLabel(str: seq<Byte>, h: nat, out: array<Byte>, q: nat) returns (n: nat)
    requires str != [] && str[|str| - 1] == 0 && IsName(str[..|str| - 1])
    requires h < |str| && q + |str| - h < out.Length
    modifies out
    ensures h + n < |str| && n < 256 && n == FirstDot(str[..|str| - 1][h..]) && (str[h + n] != 0 <==> h + n < |str| - 1)
    ensures out[q..q + n + 1] == [n] + str[..|str| - 1][h..h + n]
    ensures out[..q] == old(out[..q]) && out[q + n + 1..] == old(out[q + n + 1..])
  {
    hide FirstDot;
    ghost var name := str[..|str| - 1];
    ghost var rest := name[h..];
    n := 0;
    while str[h + n] != DOT && str[h + n] != 0
      invariant n <= |rest| && DOT !in rest[..n]
      invariant forall j :: q + 1 <= j < q + 1 + n ==> out[j] == str[h + j - (q + 1)]
      invariant forall j :: 0 <= j < out.Length && !(q < j < q + 1 + n) ==> out[j] == old(out[j])
      decreases |rest| - n
    {
      assert n != |rest|;
      assert rest[..n + 1] == rest[..n] + [rest[n]];
      out[q + 1 + n] := str[h + n];
      n := n + 1;
    }
    if n < |rest| { assert str[h + n] == name[h + n]; }
    FirstDotIs(rest, n);
    out[q] := n;
    assert out[q..q + n + 1] == [out[q]] + out[q + 1..q + n + 1];
    SameBytes(out[..], name, q + 1, h, n);
  }

  lemma SameBytes(a: seq<Byte>, b: seq<Byte>, i: nat, at: nat, n: nat)
    requires i + n <= |a| && at + n <= |b| && forall j :: i <= j < i + n ==> a[j] == b[at + j - i]
    ensures a[i..i + n] == b[at..at + n]
  {}
}
