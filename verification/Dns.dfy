/**
 The DNS codec of the resolver (RFC 1035): building a query, skipping a possibly
 compressed name and finding an address record in a reply.
 */
module Dns {
  import opened Common

  const MAX_HOPS := 128

  function Get16(p: seq<byte>, at: nat): (v: nat)
    requires at + 2 <= |p|
    ensures v < 65536
  {
    256 * (p[at] as int) + p[at + 1] as int
  }

  function Put16(v: nat): (s: seq<byte>)
    requires v < 65536
    ensures |s| == 2
  {
    [v / 256, v % 256]
  }

  // ----- Names on the wire (sections 4.1.2 and 4.1.4)

  type Label = seq<byte>

  predicate ValidLabel(l: Label) { 1 <= |l| <= 63 }

  /** Labels, ended by the root or by a pointer to an earlier name. */
  datatype Name = Name(labels: seq<Label>, pointer: Option<nat>)

  predicate ValidLabels(labels: seq<Label>) { forall l :: l in labels ==> ValidLabel(l) }

  function LabelBytes(labels: seq<Label>): seq<byte>
    requires ValidLabels(labels)
  {
    if labels == [] then [] else
      assert labels[0] in labels;
      var n: byte := |labels[0]|;
      [n] + labels[0] + LabelBytes(labels[1..])
  }

  predicate ValidName(nm: Name) {
    ValidLabels(nm.labels) && |nm.labels| < MAX_HOPS && (nm.pointer.Some? ==> nm.pointer.value < 0x4000)
  }

  /** A pointer, if any, points into a packet of this size. */
  predicate PointsInto(nm: Name, size: nat) { nm.pointer.Some? ==> nm.pointer.value < size }

  function NameEnd(pointer: Option<nat>): seq<byte>
    requires pointer.Some? ==> pointer.value < 0x4000
  {
    match pointer case None => [0] case Some(at) => [192 + at / 256, at % 256]
  }

  function NameBytes(nm: Name): seq<byte>
    requires ValidName(nm)
  {
    LabelBytes(nm.labels) + NameEnd(nm.pointer)
  }

  /** `skip_name` from a position, after some hops: the position behind the name. */
  function Skip(p: seq<byte>, pos: nat, hops: nat): (r: Option<nat>)
    ensures r.Some? ==> pos < r.value <= |p|
    decreases |p| - pos
  {
    if pos >= |p| || hops >= MAX_HOPS then None
    else
      var l := p[pos];
      if l == 0 then Some(pos + 1)
      else if l >= 192 then
        if pos + 1 >= |p| || 256 * (l - 192) + p[pos + 1] >= |p| then None else Some(pos + 2)
      else if l >= 64 || pos + 1 + l > |p| then None
      else Skip(p, pos + 1 + l, hops + 1)
  }

  method SkipName(p: seq<byte>, off: nat) returns (r: Option<nat>)
    ensures r == Skip(p, off, 0)
  {
    var pos, hops := off, 0;
    while pos < |p| && hops < MAX_HOPS
      invariant 0 <= hops <= MAX_HOPS && 0 <= pos
      invariant Skip(p, off, 0) == Skip(p, pos, hops)
      decreases |p| - pos
    {
      var l := p[pos];
      pos, hops := pos + 1, hops + 1;
      if l == 0 {
        return Some(pos);
      }
      if l >= 192 {
        if pos >= |p| || 256 * (l - 192) + p[pos] >= |p| {
          return None;
        }
        return Some(pos + 1);
      }
      if l >= 64 || pos + l > |p| {
        return None;
      }
      pos := pos + l;
    }
    return None;
  }

  /** The labels stand at `pos`. */
  predicate LabelsAt(p: seq<byte>, pos: nat, labels: seq<Label>) {
    ValidLabels(labels) && pos + |LabelBytes(labels)| <= |p| && p[pos..pos + |LabelBytes(labels)|] == LabelBytes(labels)
  }

  lemma {:induction false} LabelsAtHead(p: seq<byte>, pos: nat, labels: seq<Label>)
    requires LabelsAt(p, pos, labels) && labels != []
    ensures 0 < |labels[0]| < 64 && pos + 1 + |labels[0]| <= |p|
    ensures p[pos] == |labels[0]| && p[pos + 1..pos + 1 + |labels[0]|] == labels[0]
    ensures LabelsAt(p, pos + 1 + |labels[0]|, labels[1..])
    ensures |LabelBytes(labels)| == 1 + |labels[0]| + |LabelBytes(labels[1..])|
  {
    var l, rest := labels[0], labels[1..];
    assert l in labels && forall x :: x in rest ==> x in labels;
    var wire := LabelBytes(labels);
    var n: byte := |l|;
    assert wire == [n] + l + LabelBytes(rest);
    Standing(p, pos, n, l, LabelBytes(rest));
  }

  lemma Standing(p: seq<byte>, pos: nat, n: byte, l: seq<byte>, rest: seq<byte>)
    requires var here := [n] + l + rest; pos + |here| <= |p| && p[pos..pos + |here|] == here
    ensures p[pos] == n && p[pos + 1..pos + 1 + |l|] == l
    ensures p[pos + 1 + |l|..pos + 1 + |l| + |rest|] == rest
  {
    var here := [n] + l + rest;
    assert p[pos] == p[pos..pos + |here|][0];
    SliceOfSlice(p, pos, pos + |here|, 1, 1 + |l|);
    SliceOfSlice(p, pos, pos + |here|, 1 + |l|, |here|);
    Parts(n, l, rest);
  }

  lemma SliceOfSlice(p: seq<byte>, a: nat, b: nat, c: nat, d: nat)
    requires a <= b <= |p| && c <= d <= b - a
    ensures p[a..b][c..d] == p[a + c..a + d]
  {
    assert forall i :: 0 <= i < d - c ==> p[a..b][c..d][i] == p[a + c..a + d][i];
  }

  lemma Parts(n: byte, l: seq<byte>, rest: seq<byte>)
    ensures var here := [n] + l + rest; here[1..1 + |l|] == l && here[1 + |l|..|here|] == rest
  {
    var here := [n] + l + rest;
    assert forall i :: 0 <= i < |l| ==> here[1..1 + |l|][i] == l[i];
    assert forall i :: 0 <= i < |rest| ==> here[1 + |l|..|here|][i] == rest[i];
  }

  /** Skipping encoded labels: every one costs a hop. */
  lemma {:induction false} SkipLabels(p: seq<byte>, pos: nat, labels: seq<Label>, hops: nat, end: nat, total: nat)
    requires LabelsAt(p, pos, labels) && end == pos + |LabelBytes(labels)| && total == hops + |labels|
    ensures Skip(p, pos, hops) == if total <= MAX_HOPS then Skip(p, end, total) else None
    decreases |labels|
  {
    if labels != [] {
      LabelsAtHead(p, pos, labels);
      SkipOne(p, pos, hops, |labels[0]|);
      SkipLabels(p, pos + 1 + |labels[0]|, labels[1..], hops + 1, end, total);
    }
  }

  lemma {:induction false} SkipOne(p: seq<byte>, pos: nat, hops: nat, n: byte)
    requires pos < |p| && p[pos] == n && 0 < n < 64 && pos + 1 + n <= |p|
    ensures Skip(p, pos, hops) == if hops < MAX_HOPS then Skip(p, pos + 1 + n, hops + 1) else None
  {
  }

  lemma {:induction false} SkipEnd(a: seq<byte>, pointer: Option<nat>, b: seq<byte>, hops: nat)
    requires hops < MAX_HOPS
    requires pointer.Some? ==> pointer.value < 0x4000 && pointer.value < |a + NameEnd(pointer) + b|
    ensures Skip(a + NameEnd(pointer) + b, |a|, hops) == Some(|a| + |NameEnd(pointer)|)
  {
    var p := a + NameEnd(pointer) + b;
    if pointer.None? {
      assert p[|a|] == 0;
    } else {
      assert p[|a|] == 192 + pointer.value / 256 && p[|a| + 1] == pointer.value % 256;
    }
  }

  /** A well-formed name is skipped to its last byte. */
  lemma SkipEncoded(a: seq<byte>, nm: Name, b: seq<byte>)
    requires ValidName(nm) && PointsInto(nm, |a + NameBytes(nm) + b|)
    ensures Skip(a + NameBytes(nm) + b, |a|, 0) == Some(|a| + |NameBytes(nm)|)
  {
    var ls, end := LabelBytes(nm.labels), NameEnd(nm.pointer);
    var p := a + NameBytes(nm) + b;
    assert p == (a + ls) + end + b && p[|a|..|a + ls|] == ls;
    SkipLabels(p, |a|, nm.labels, 0, |a + ls|, |nm.labels|);
    SkipEnd(a + ls, nm.pointer, b, |nm.labels|);
  }

  // ----- Queries

  const DOT: byte := 46

  function IndexOfDot(s: seq<byte>): (k: nat)
    ensures k <= |s| && (k < |s| ==> s[k] == DOT)
  {
    if s == [] || s[0] == DOT then 0 else 1 + IndexOfDot(s[1..])
  }

  /** The labels of a dotted name; None when one is empty or too long.  One trailing dot is allowed. */
  function SplitName(s: seq<byte>): (r: Option<seq<Label>>)
    ensures r.Some? ==> ValidLabels(r.value)
    decreases |s|
  {
    if s == [] then Some([])
    else
      var l := IndexOfDot(s);
      if l == 0 || l > 63 then None
      else if l == |s| then Some([s])
      else
        match SplitName(s[l + 1..])
        case None => None
        case Some(rest) => Some([s[..l]] + rest)
  }

  function Dotted(labels: seq<Label>): seq<byte> {
    if labels == [] then [] else if |labels| == 1 then labels[0] else labels[0] + [DOT] + Dotted(labels[1..])
  }

  /** Equal apart from a trailing dot of the first. */
  predicate SameName(s: seq<byte>, d: seq<byte>) { s == d || s == d + [DOT] }

  lemma SameNameCons(head: seq<byte>, tail: seq<byte>, d: seq<byte>)
    requires SameName(tail, d)
    ensures SameName(head + [DOT] + tail, head + [DOT] + d)
  {
    assert head + [DOT] + (d + [DOT]) == head + [DOT] + d + [DOT];
  }

  /** The labels joined by dots are the name, apart from a trailing dot. */
  lemma {:induction false} SplitNameJoins(s: seq<byte>)
    requires SplitName(s).Some?
    ensures SameName(s, Dotted(SplitName(s).value))
    decreases |s|
  {
    var l := IndexOfDot(s);
    if l < |s| {
      var head, tail := s[..l], s[l + 1..];
      assert s == head + [DOT] + tail;
      SplitNameJoins(tail);
      JoinLabel(head, tail, SplitName(tail).value);
    }
  }

  lemma {:induction false} JoinLabel(head: Label, tail: seq<byte>, rest: seq<Label>)
    requires SameName(tail, Dotted(rest)) && (rest == [] ==> tail == [])
    ensures SameName(head + [DOT] + tail, Dotted([head] + rest))
  {
    DottedCons(head, rest);
    if rest != [] {
      SameNameCons(head, tail, Dotted(rest));
    }
  }

  lemma {:induction false} DottedCons(head: Label, rest: seq<Label>)
    ensures Dotted([head] + rest) == if rest == [] then head else head + [DOT] + Dotted(rest)
  {
    assert ([head] + rest)[1..] == rest;
  }

  function Header(id: nat, flags: nat, answers: nat): (h: seq<byte>)
    requires id < 65536 && flags < 65536 && answers < 65536
    ensures |h| == 8
  {
    Put16(id) + Put16(flags) + Put16(1) + Put16(answers)
  }

  /** A query for one name: header, question name, type and class IN. */
  function Query(id: nat, labels: seq<Label>, qtype: nat): seq<byte>
    requires id < 65536 && qtype < 65536 && ValidLabels(labels)
  {
    Header(id, 0x0100, 0) + [0, 0, 0, 0] + LabelBytes(labels) + [0] + Put16(qtype) + Put16(1)
  }

  /** The builder accepts exactly the names with valid labels whose query fits. */
  predicate Accepted(capacity: nat, name: seq<byte>) {
    capacity >= 17 && SplitName(name).Some? && 17 + |LabelBytes(SplitName(name).value)| <= capacity
  }

  method Store(out: array<byte>, at: nat, bytes: seq<byte>)
    requires at + |bytes| <= out.Length
    modifies out
    ensures out[..at + |bytes|] == old(out[..at]) + bytes
    ensures out[at + |bytes|..] == old(out[at + |bytes|..])
  {
    forall i | 0 <= i < |bytes| {
      out[at + i] := bytes[i];
    }
  }

  /** Writes the labels of a name, one by one, from position 12. */
  method StoreLabels(out: array<byte>, name: seq<byte>) returns (pos: int)
    requires out.Length >= 17
    modifies out
    ensures pos == -1 <==> !Accepted(out.Length, name)
    ensures Accepted(out.Length, name) ==>
      var wire := LabelBytes(SplitName(name).value);
      pos == 12 + |wire| && pos + 5 <= out.Length && out[..pos] == old(out[..12]) + wire
  {
    pos := 12;
    var s := name;
    ghost var done: seq<Label> := [];
    PrefixedNothing(done);
    while s != []
      invariant 12 <= pos && pos + 5 <= out.Length && ValidLabels(done)
      invariant pos == 12 + |LabelBytes(done)| && out[..pos] == old(out[..12]) + LabelBytes(done)
      invariant SplitName(name) == Prefixed(done, SplitName(s))
      decreases |s|
    {
      var l := IndexOfDot(s);
      if l == 0 || l > 63 {
        return -1;
      }
      var lab := s[..l];
      var next := if l == |s| then [] else s[l + 1..];
      NextLabel(done, s, l, next);
      OneLabel(lab);
      LabelsConcat(done, [lab]);
      if pos + 1 + l + 5 > out.Length {
        if SplitName(next).Some? {
          LabelsConcat(done + [lab], SplitName(next).value);
        }
        return -1;
      }
      Assoc(old(out[..12]), LabelBytes(done), LabelBytes([lab]));
      StoreLabel(out, pos, lab);
      pos := pos + 1 + l;
      done := done + [lab];
      s := next;
    }
    PrefixedNothing(done);
  }

  method StoreLabel(out: array<byte>, pos: nat, lab: Label)
    requires ValidLabel(lab) && pos + 1 + |lab| <= out.Length
    modifies out
    ensures out[..pos + 1 + |lab|] == old(out[..pos]) + LabelBytes([lab])
  {
    var n: byte := |lab|;
    assert [lab][1..] == [] && LabelBytes([lab]) == [n] + lab;
    Store(out, pos, [n] + lab);
  }

  lemma PrefixedNothing(done: seq<Label>)
    ensures Prefixed(done, Some([])) == Some(done)
    ensures forall r :: Prefixed([], r) == r
  {
    assert done + [] == done;
    forall r ensures Prefixed([], r) == r {
      if r.Some? { assert [] + r.value == r.value; }
    }
  }

  function Prefixed(done: seq<Label>, r: Option<seq<Label>>): Option<seq<Label>> {
    match r case Some(rest) => Some(done + rest) case None => None
  }

  lemma {:induction false} NextLabel(done: seq<Label>, s: seq<byte>, l: nat, next: seq<byte>)
    requires s != [] && l == IndexOfDot(s) && 1 <= l <= 63 && next == if l == |s| then [] else s[l + 1..]
    ensures Prefixed(done, SplitName(s)) == Prefixed(done + [s[..l]], SplitName(next))
    ensures ValidLabels(done) ==> ValidLabels(done + [s[..l]])
  {
    if l == |s| {
      assert s[..l] == s;
      assert done + [s] == done + [s] + [];
    } else if SplitName(next).Some? {
      assert done + ([s[..l]] + SplitName(next).value) == done + [s[..l]] + SplitName(next).value;
    }
  }

  lemma {:induction false} LabelsConcat(a: seq<Label>, b: seq<Label>)
    requires ValidLabels(a) && ValidLabels(b)
    ensures ValidLabels(a + b) && LabelBytes(a + b) == LabelBytes(a) + LabelBytes(b)
    decreases |a|
  {
    if a == [] {
      assert a + b == b;
    } else {
      assert (a + b)[0] == a[0] && (a + b)[1..] == a[1..] + b;
      assert a[0] in a && forall l :: l in a[1..] ==> l in a;
      LabelsConcat(a[1..], b);
      var n: byte := |a[0]|;
      Assoc([n] + a[0], LabelBytes(a[1..]), LabelBytes(b));
    }
  }

  lemma OneLabel(lab: Label)
    requires ValidLabel(lab)
    ensures ValidLabels([lab]) && |LabelBytes([lab])| == 1 + |lab|
  {
    assert [lab][1..] == [];
  }

  /** `dns_build_query_type`: the length of the query, or -1. */
  method BuildQuery(out: array<byte>, id: nat, name: seq<byte>, qtype: nat) returns (len: int)
    requires id < 65536 && qtype < 65536
    modifies out
    ensures len == -1 <==> !Accepted(out.Length, name)
    ensures Accepted(out.Length, name) ==> 0 <= len <= out.Length && out[..len] == Query(id, SplitName(name).value, qtype)
  {
    if out.Length < 17 {
      return -1;
    }
    StoreHeader(out, id);
    var pos := StoreLabels(out, name);
    if pos == -1 {
      return -1;
    }
    Store(out, pos, [0] + Put16(qtype) + Put16(1));
    len := pos + 5;
    Chunks(Header(id, 0x0100, 0) + [0, 0, 0, 0] + LabelBytes(SplitName(name).value), [0], Put16(qtype), Put16(1));
  }

  /** Clears the buffer and writes the header of a query. */
  method StoreHeader(out: array<byte>, id: nat)
    requires id < 65536 && out.Length >= 17
    modifies out
    ensures out[..12] == Header(id, 0x0100, 0) + [0, 0, 0, 0]
  {
    forall i | 0 <= i < out.Length {
      out[i] := 0;
    }
    Store(out, 0, Put16(id) + Put16(0x0100) + Put16(1));
    assert out[..6] == Put16(id) + Put16(0x0100) + Put16(1);
    assert out[6..][..6] == Put16(0) + [0, 0, 0, 0];
    assert out[..12] == out[..6] + out[6..][..6];
  }

  lemma Assoc<T>(a: seq<T>, b: seq<T>, c: seq<T>)
    ensures a + (b + c) == a + b + c
  {
  }

  lemma Chunks<T>(a: seq<T>, b: seq<T>, c: seq<T>, d: seq<T>)
    ensures a + (b + c + d) == a + b + c + d
  {
  }

  lemma {:induction false} LabelsLength(labels: seq<Label>)
    requires ValidLabels(labels)
    ensures |LabelBytes(labels)| >= 2 * |labels|
    decreases |labels|
  {
    if labels != [] {
      assert labels[0] in labels && forall l :: l in labels[1..] ==> l in labels;
      LabelsLength(labels[1..]);
    }
  }

  /** Labels read back from the wire. */
  function ReadLabels(p: seq<byte>, pos: nat): seq<Label>
    decreases |p| - pos
  {
    if pos >= |p| || p[pos] == 0 || pos + 1 + p[pos] > |p| then []
    else [p[pos + 1..pos + 1 + p[pos]]] + ReadLabels(p, pos + 1 + p[pos])
  }

  lemma {:induction false} ReadLabelsBack(p: seq<byte>, pos: nat, labels: seq<Label>)
    requires LabelsAt(p, pos, labels)
    requires var end := pos + |LabelBytes(labels)|; end < |p| && p[end] == 0
    ensures ReadLabels(p, pos) == labels
    decreases |labels|
  {
    if labels != [] {
      LabelsAtHead(p, pos, labels);
      ReadLabelsBack(p, pos + 1 + |labels[0]|, labels[1..]);
      assert [labels[0]] + labels[1..] == labels;
    }
  }

  /**
   In a query the name is skipped to exactly 4 bytes before the end if and only if
   it has at most 127 labels; names of at most 255 octets always do.  Its labels
   read back are those of the name.
   */
  lemma QueryName(id: nat, labels: seq<Label>, qtype: nat)
    requires id < 65536 && qtype < 65536 && ValidLabels(labels)
    ensures var q := Query(id, labels, qtype);
      && (Skip(q, 12, 0) == Some(|q| - 4) <==> |labels| <= 127)
      && (Skip(q, 12, 0) == None <==> |labels| > 127)
      && ReadLabels(q, 12) == labels
      && (|LabelBytes(labels)| + 1 <= 255 ==> |labels| <= 127)
  {
    var head := Header(id, 0x0100, 0) + [0, 0, 0, 0];
    var wire, tail := LabelBytes(labels), Put16(qtype) + Put16(1);
    var q := Query(id, labels, qtype);
    QueryParts(head, wire, tail);
    assert q == head + wire + ([0] + tail);
    SkipLabels(q, 12, labels, 0, |head + wire|, |labels|);
    if |labels| < MAX_HOPS {
      SkipEnd(head + wire, None, tail, |labels|);
    }
    ReadLabelsBack(q, 12, labels);
    LabelsLength(labels);
  }

  /**
   The bytes of a query around its name (sections 4.1.1 and 4.1.2 of RFC 1035): identifier,
   recursion desired, one question and nothing else, then type and class IN.
   */
  lemma QueryLayout(id: nat, labels: seq<Label>, qtype: nat)
    requires id < 65536 && qtype < 65536 && ValidLabels(labels)
    ensures var q := Query(id, labels, qtype); var n := |q|;
      && n == 17 + |LabelBytes(labels)|
      && q[..12] == [id / 256, id % 256, 1, 0, 0, 1, 0, 0, 0, 0, 0, 0]
      && q[12..n - 5] == LabelBytes(labels)
      && q[n - 5..] == [0, qtype / 256, qtype % 256, 0, 1]
  {
    var head, wire := Header(id, 0x0100, 0) + [0, 0, 0, 0], LabelBytes(labels);
    var tail := [0] + Put16(qtype) + Put16(1);
    Chunks(head + wire, [0], Put16(qtype), Put16(1));
    Thirds(head, wire, tail);
    assert head == [id / 256, id % 256, 1, 0, 0, 1, 0, 0, 0, 0, 0, 0];
    assert tail == [0, qtype / 256, qtype % 256, 0, 1];
  }

  lemma Thirds(a: seq<byte>, b: seq<byte>, c: seq<byte>)
    ensures var s := a + b + c; s[..|a|] == a && s[|a|..|s| - |c|] == b && s[|s| - |c|..] == c
  {
  }

  /** The name read back from the query built for it is that name, apart from a trailing dot. */
  lemma QueryAsksForName(id: nat, name: seq<byte>, qtype: nat)
    requires id < 65536 && qtype < 65536 && SplitName(name).Some?
    ensures SameName(name, Dotted(ReadLabels(Query(id, SplitName(name).value, qtype), 12)))
  {
    QueryName(id, SplitName(name).value, qtype);
    SplitNameJoins(name);
  }

  lemma QueryParts(head: seq<byte>, wire: seq<byte>, tail: seq<byte>)
    requires |head| == 12
    ensures var q := head + wire + ([0] + tail);
      q[12..12 + |wire|] == wire && q[12 + |wire|] == 0 && q == (head + wire) + [0] + tail
  {
  }

  // ----- Replies (sections 4.1.1 and 4.1.3)

  /** The fixed fields of the record whose owner name ends at `at`. */
  datatype Fields = Fields(rtype: nat, class_: nat, data: nat, length: nat)

  /** The record that starts at an offset, if it lies inside the packet. */
  function RecordAt(p: seq<byte>, off: nat): (r: Option<Fields>)
    ensures r.Some? ==> off < r.value.data && r.value.data + r.value.length <= |p|
  {
    match Skip(p, off, 0)
    case None => None
    case Some(at) =>
      if at + 10 > |p| || at + 10 + Get16(p, at + 8) > |p| then None
      else Some(Fields(Get16(p, at), Get16(p, at + 2), at + 10, Get16(p, at + 8)))
  }

  function Data(p: seq<byte>, f: Fields): seq<byte>
    requires f.data + f.length <= |p|
  {
    p[f.data..f.data + f.length]
  }

  predicate Wanted(f: Fields, rtype: nat, length: nat) { f.rtype == rtype && f.class_ == 1 && f.length == length }

  /** The RDATA of the first wanted record among the next `n`. */
  function FindFrom(p: seq<byte>, off: nat, n: nat, rtype: nat, length: nat): Option<seq<byte>>
    decreases n
  {
    if n == 0 then None
    else
      match RecordAt(p, off)
      case None => None
      case Some(f) =>
        if Wanted(f, rtype, length) then Some(Data(p, f))
        else FindFrom(p, f.data + f.length, n - 1, rtype, length)
  }

  /** A reply to the query `id`, without error, with one question. */
  predicate GoodHeader(p: seq<byte>, id: nat) {
    |p| >= 12 && Get16(p, 0) == id && Get16(p, 2) >= 0x8000 && Get16(p, 2) % 16 == 0 && Get16(p, 4) == 1
  }

  /** The A parser with type 1 and length 4, the AAAA parser with 28 and 16. */
  function Answer(p: seq<byte>, id: nat, rtype: nat, length: nat): Option<seq<byte>> {
    if !GoodHeader(p, id) then None
    else match Skip(p, 12, 0)
      case None => None
      case Some(off) => if off + 4 > |p| then None else FindFrom(p, off + 4, Get16(p, 6), rtype, length)
  }

  method ReadRecord(p: seq<byte>, off: nat) returns (r: Option<Fields>)
    ensures r == RecordAt(p, off)
  {
    var owner := SkipName(p, off);
    if owner.None? || owner.value + 10 > |p| {
      return None;
    }
    var at := owner.value;
    var rtype, class_, length := Get16(p, at), Get16(p, at + 2), Get16(p, at + 8);
    if at + 10 + length > |p| {
      return None;
    }
    return Some(Fields(rtype, class_, at + 10, length));
  }

  method ParseReply(p: seq<byte>, id: nat, rtype: nat, length: nat) returns (r: Option<seq<byte>>)
    ensures r == Answer(p, id, rtype, length)
  {
    if |p| < 12 || Get16(p, 0) != id || Get16(p, 2) < 0x8000 || Get16(p, 2) % 16 != 0 || Get16(p, 4) != 1 {
      return None;
    }
    var name := SkipName(p, 12);
    if name.None? || name.value + 4 > |p| {
      return None;
    }
    r := FindRecord(p, name.value + 4, Get16(p, 6), rtype, length);
  }

  method FindRecord(p: seq<byte>, start: nat, answers: nat, rtype: nat, length: nat) returns (r: Option<seq<byte>>)
    ensures r == FindFrom(p, start, answers, rtype, length)
  {
    var off := start;
    for i := 0 to answers
      invariant 0 <= off
      invariant FindFrom(p, start, answers, rtype, length) == FindFrom(p, off, answers - i, rtype, length)
    {
      var record := ReadRecord(p, off);
      if record.None? {
        return None;
      }
      var f := record.value;
      if f.rtype == rtype && f.class_ == 1 && f.length == length {
        return Some(Data(p, f));
      }
      off := f.data + f.length;
    }
    return None;
  }

  // ----- The record walk

  /** Where record `k` starts when all before it lie inside the packet. */
  function Offset(p: seq<byte>, off: nat, k: nat): Option<nat>
    decreases k
  {
    if k == 0 then Some(off)
    else match RecordAt(p, off)
      case None => None
      case Some(f) => Offset(p, f.data + f.length, k - 1)
  }

  /** Record `k` of the walk, when it is there. */
  function WalkRecord(p: seq<byte>, off: nat, k: nat): Option<Fields> {
    match Offset(p, off, k) case None => None case Some(at) => RecordAt(p, at)
  }

  /** Record `k` of the walk is there and wanted. */
  predicate WantedAt(p: seq<byte>, off: nat, k: nat, rtype: nat, length: nat) {
    WalkRecord(p, off, k).Some? && Wanted(WalkRecord(p, off, k).value, rtype, length)
  }

  lemma {:induction false} WalkNext(p: seq<byte>, off: nat, k: nat)
    requires k > 0
    ensures WalkRecord(p, off, k) == match RecordAt(p, off)
      case None => None
      case Some(f) => WalkRecord(p, f.data + f.length, k - 1)
  {
    if RecordAt(p, off).Some? {
      var f := RecordAt(p, off).value;
      assert Offset(p, off, k) == Offset(p, f.data + f.length, k - 1);
    }
  }

  /** Record `k` is the first wanted one of the next `n` and the one found, or `k == n` and none is. */
  predicate IsFirst(p: seq<byte>, off: nat, n: nat, k: nat, rtype: nat, length: nat) {
    && k <= n
    && (forall j :: 0 <= j < k ==> !WantedAt(p, off, j, rtype, length))
    && (k < n ==> WantedAt(p, off, k, rtype, length))
    && FindFrom(p, off, n, rtype, length) == if k < n then Some(Data(p, WalkRecord(p, off, k).value)) else None
  }

  /** An answer is the data of the first wanted record of the walk, and there is one whenever the walk meets one. */
  lemma {:induction false} FoundIsFirst(p: seq<byte>, off: nat, n: nat, rtype: nat, length: nat) returns (k: nat)
    ensures IsFirst(p, off, n, k, rtype, length)
    decreases n
  {
    if n == 0 {
      return 0;
    }
    var record := RecordAt(p, off);
    if record.None? || Wanted(record.value, rtype, length) {
      k := if record.None? then n else 0;
      FirstNow(p, off, n, rtype, length);
    } else {
      var next := record.value.data + record.value.length;
      var rest := FoundIsFirst(p, next, n - 1, rtype, length);
      FirstLater(p, off, n, rest, rtype, length);
      k := rest + 1;
    }
  }

  lemma {:induction false} FirstNow(p: seq<byte>, off: nat, n: nat, rtype: nat, length: nat)
    requires n > 0 && (RecordAt(p, off).None? || Wanted(RecordAt(p, off).value, rtype, length))
    ensures IsFirst(p, off, n, if RecordAt(p, off).None? then n else 0, rtype, length)
  {
    assert WalkRecord(p, off, 0) == RecordAt(p, off);
    if RecordAt(p, off).None? {
      forall j | 0 < j < n ensures !WantedAt(p, off, j, rtype, length) {
        WalkNext(p, off, j);
      }
    }
  }

  lemma {:induction false} FirstLater(p: seq<byte>, off: nat, n: nat, k: nat, rtype: nat, length: nat)
    requires n > 0 && RecordAt(p, off).Some? && !Wanted(RecordAt(p, off).value, rtype, length)
    requires var f := RecordAt(p, off).value; IsFirst(p, f.data + f.length, n - 1, k, rtype, length)
    ensures IsFirst(p, off, n, k + 1, rtype, length)
  {
    var f := RecordAt(p, off).value;
    var next := f.data + f.length;
    assert WalkRecord(p, off, 0) == Some(f);
    forall j | 0 < j <= k + 1 ensures WalkRecord(p, off, j) == WalkRecord(p, next, j - 1) {
      WalkNext(p, off, j);
    }
    forall j | 0 <= j < k + 1 ensures !WantedAt(p, off, j, rtype, length) {
      if j > 0 { assert !WantedAt(p, next, j - 1, rtype, length); }
    }
  }

  // ----- Encoded replies

  datatype Record = Record(owner: Name, rtype: nat, class_: nat, ttl: seq<byte>, rdata: seq<byte>)

  predicate ValidRecord(r: Record) {
    ValidName(r.owner) && r.rtype < 65536 && r.class_ < 65536 && |r.ttl| == 4 && |r.rdata| < 65536
  }

  function RecordHead(r: Record): (s: seq<byte>)
    requires ValidRecord(r)
    ensures |s| == 10
  {
    Put16(r.rtype) + Put16(r.class_) + r.ttl + Put16(|r.rdata|)
  }

  function RecordBytes(r: Record): seq<byte>
    requires ValidRecord(r)
  {
    NameBytes(r.owner) + RecordHead(r) + r.rdata
  }

  predicate ValidRecords(rs: seq<Record>) { forall r :: r in rs ==> ValidRecord(r) }

  function RecordsBytes(rs: seq<Record>): seq<byte>
    requires ValidRecords(rs)
  {
    if rs == [] then [] else
      assert rs[0] in rs;
      RecordBytes(rs[0]) + RecordsBytes(rs[1..])
  }

  /** The data of the first record of the wanted type, class IN and length. */
  function FirstWanted(rs: seq<Record>, rtype: nat, length: nat): Option<seq<byte>> {
    if rs == [] then None
    else if rs[0].rtype == rtype && rs[0].class_ == 1 && |rs[0].rdata| == length then Some(rs[0].rdata)
    else FirstWanted(rs[1..], rtype, length)
  }

  lemma HeadFields(a: seq<byte>, r: Record, b: seq<byte>)
    requires ValidRecord(r)
    ensures var p := a + RecordHead(r) + b;
      Get16(p, |a|) == r.rtype && Get16(p, |a| + 2) == r.class_ && Get16(p, |a| + 8) == |r.rdata|
  {
    var h := RecordHead(r);
    var p := a + h + b;
    assert p[|a|] == h[0] && p[|a| + 1] == h[1] && p[|a| + 2] == h[2] && p[|a| + 3] == h[3];
    assert p[|a| + 8] == h[8] && p[|a| + 9] == h[9];
  }

  lemma Regroup(a: seq<byte>, b: seq<byte>, c: seq<byte>, d: seq<byte>, e: seq<byte>)
    ensures a + (b + c + d) + e == a + b + (c + d + e)
    ensures a + (b + c + d) + e == (a + b) + c + (d + e)
    ensures (a + (b + c + d) + e)[|a| + |b| + |c|..|a| + |b| + |c| + |d|] == d
  {
  }

  /** The record at `off` ends at `next` and is `r`. */
  predicate Stands(p: seq<byte>, off: nat, r: Record, next: nat) {
    RecordAt(p, off).Some?
    && var f := RecordAt(p, off).value;
    && f.rtype == r.rtype && f.class_ == r.class_ && f.length == |r.rdata|
    && f.data + f.length == next && Data(p, f) == r.rdata
  }

  /** An encoded record is found where it was put. */
  lemma RecordFound(a: seq<byte>, r: Record, b: seq<byte>)
    requires ValidRecord(r) && PointsInto(r.owner, |a + RecordBytes(r) + b|)
    ensures Stands(a + RecordBytes(r) + b, |a|, r, |a + RecordBytes(r)|)
  {
    var name, head := NameBytes(r.owner), RecordHead(r);
    Regroup(a, name, head, r.rdata, b);
    SkipEncoded(a, r.owner, head + r.rdata + b);
    HeadFields(a + name, r, r.rdata + b);
  }

  lemma Between(a: seq<byte>, b: seq<byte>, c: seq<byte>, d: seq<byte>)
    ensures a + (b + c) + d == a + b + (c + d) == (a + b) + c + d
  {
  }

  lemma {:induction false} FirstFound(p: seq<byte>, off: nat, rs: seq<Record>, next: nat, rtype: nat, length: nat)
    requires rs != [] && Stands(p, off, rs[0], next)
    requires FindFrom(p, next, |rs| - 1, rtype, length) == FirstWanted(rs[1..], rtype, length)
    ensures FindFrom(p, off, |rs|, rtype, length) == FirstWanted(rs, rtype, length)
  {
  }

  /** Walking encoded records gives the first wanted one, whatever precedes and follows them. */
  lemma {:induction false} RecordsFound(a: seq<byte>, rs: seq<Record>, b: seq<byte>, rtype: nat, length: nat)
    requires ValidRecords(rs)
    requires forall r :: r in rs ==> PointsInto(r.owner, |a + RecordsBytes(rs) + b|)
    ensures FindFrom(a + RecordsBytes(rs) + b, |a|, |rs|, rtype, length) == FirstWanted(rs, rtype, length)
    decreases |rs|
  {
    if rs != [] {
      var r, rest := rs[0], rs[1..];
      assert r in rs && forall x :: x in rest ==> x in rs;
      var one, more := RecordBytes(r), RecordsBytes(rest);
      var p := a + RecordsBytes(rs) + b;
      Between(a, one, more, b);
      RecordFound(a, r, more + b);
      RecordsFound(a + one, rest, b, rtype, length);
      FirstFound(p, |a|, rs, |a + one|, rtype, length);
    }
  }

  /** A whole reply: header, one question, answers and anything after them. */
  datatype Reply = Reply(id: nat, flags: nat, counts: seq<byte>, question: Name, kind: seq<byte>,
                         answers: seq<Record>, extra: seq<byte>)

  predicate ValidReply(m: Reply) {
    && m.id < 65536 && m.flags < 65536 && |m.counts| == 4
    && ValidName(m.question) && |m.kind| == 4
    && ValidRecords(m.answers) && |m.answers| < 65536
    && PointsInto(m.question, |ReplyBytes(m)|)
    && forall r :: r in m.answers ==> PointsInto(r.owner, |ReplyBytes(m)|)
  }

  function ReplyHead(m: Reply): seq<byte>
    requires m.id < 65536 && m.flags < 65536 && |m.answers| < 65536
  {
    Header(m.id, m.flags, |m.answers|) + m.counts
  }

  function ReplyBytes(m: Reply): seq<byte>
    requires m.id < 65536 && m.flags < 65536 && |m.answers| < 65536
    requires ValidName(m.question) && ValidRecords(m.answers)
  {
    ReplyHead(m) + (NameBytes(m.question) + m.kind + RecordsBytes(m.answers)) + m.extra
  }

  lemma ReplyHeader(m: Reply, b: seq<byte>)
    requires m.id < 65536 && m.flags < 65536 && |m.answers| < 65536
    ensures var p := ReplyHead(m) + b;
      Get16(p, 0) == m.id && Get16(p, 2) == m.flags && Get16(p, 4) == 1 && Get16(p, 6) == |m.answers|
  {
    var h := Header(m.id, m.flags, |m.answers|);
    var p := ReplyHead(m) + b;
    assert p[..8] == h;
    assert forall i :: 0 <= i < 8 ==> p[i] == p[..8][i];
  }

  /**
   A parser given an encoded reply answers exactly when the identifier is its own and
   the flags say response and no error, and then with the first wanted record.
   */
  lemma ReplyAnswered(m: Reply, id: nat, rtype: nat, length: nat)
    requires ValidReply(m)
    ensures Answer(ReplyBytes(m), id, rtype, length)
      == if m.id == id && m.flags >= 0x8000 && m.flags % 16 == 0 then FirstWanted(m.answers, rtype, length) else None
  {
    var head, name, answers := ReplyHead(m), NameBytes(m.question), RecordsBytes(m.answers);
    ReplyParts(head, name, m.kind, answers, m.extra);
    ReplyHeader(m, name + m.kind + answers + m.extra);
    QuestionSkipped(head, m.question, m.kind, answers + m.extra);
    RecordsFound(head + name + m.kind, m.answers, m.extra, rtype, length);
    AnswerWalks(ReplyBytes(m), id, |head + name + m.kind|, rtype, length);
  }

  lemma AnswerWalks(p: seq<byte>, id: nat, start: nat, rtype: nat, length: nat)
    requires |p| >= 12 && Skip(p, 12, 0).Some? && Skip(p, 12, 0).value + 4 == start <= |p|
    ensures Answer(p, id, rtype, length) ==
      if GoodHeader(p, id) then FindFrom(p, start, Get16(p, 6), rtype, length) else None
  {
  }

  lemma QuestionSkipped(a: seq<byte>, nm: Name, kind: seq<byte>, b: seq<byte>)
    requires ValidName(nm) && |kind| == 4 && PointsInto(nm, |a + (NameBytes(nm) + kind + b)|)
    ensures var p := a + (NameBytes(nm) + kind + b);
      Skip(p, |a|, 0).Some? && Skip(p, |a|, 0).value + 4 == |a + NameBytes(nm) + kind| <= |p|
  {
    assert a + (NameBytes(nm) + kind + b) == a + NameBytes(nm) + (kind + b);
    SkipEncoded(a, nm, kind + b);
  }

  lemma ReplyParts(a: seq<byte>, b: seq<byte>, c: seq<byte>, d: seq<byte>, e: seq<byte>)
    ensures a + (b + c + d) + e == a + (b + c + d + e) == a + (b + c + (d + e)) == (a + b + c) + d + e
  {
  }
}
