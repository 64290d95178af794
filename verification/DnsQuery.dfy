/** Queries: built, unpacked and compared. */
module DnsQuery {
  import opened Options
  import opened Rfc1035

  const TYPE_A := 1
  const TYPE_PTR := 12
  const TYPE_AAAA := 28
  const CLASS_IN := 1

  type Short = n: int | 0 <= n < 0x1_0000

  // ===== 16-bit fields and the header =====

  function ShortPack(n: Short): (b: seq<Octet>)
    ensures |b| == 2
  {
    [n / 256, n % 256]
  }

  function ShortAt(buf: seq<Octet>, off: nat): Short
    requires off + 2 <= |buf|
  {
    var high: int, low: int := buf[off], buf[off + 1];
    256 * high + low
  }

  /** The more significant octet comes first. */
  lemma ShortIs(buf: seq<Octet>, off: nat, n: Short)
    requires off + 2 <= |buf|
    ensures ShortAt(buf, off) == n <==> buf[off] == n / 0x100 && buf[off + 1] == n % 0x100
  {
  }

  datatype Header = Header(id: Short, qr: nat, opcode: nat, aa: nat, tc: nat, rd: nat, ra: nat, rcode: nat,
                           qdcount: Short, ancount: Short, nscount: Short, arcount: Short)

  /** The widths of the bit fields. */
  predicate InRange(h: Header) {
    h.qr < 2 && h.opcode < 16 && h.aa < 2 && h.tc < 2 && h.rd < 2 && h.ra < 2 && h.rcode < 16
  }

  /** The fields are or-ed together at places that do not overlap. */
  function Flags(h: Header): Short
    requires InRange(h)
  {
    0x8000 * h.qr + 0x800 * h.opcode + 0x400 * h.aa + 0x200 * h.tc + 0x100 * h.rd + 0x80 * h.ra + h.rcode
  }

  /** rfc1035HeaderPack */
  function HeaderPack(h: Header): (b: seq<Octet>)
    requires InRange(h)
    ensures |b| == 12
  {
    ShortPack(h.id) + ShortPack(Flags(h)) + ShortPack(h.qdcount) + ShortPack(h.ancount) + ShortPack(h.nscount)
      + ShortPack(h.arcount)
  }

  /** rfc1035HeaderUnpack */
  function HeaderUnpack(buf: seq<Octet>): Option<Header> {
    if |buf| < 12 then None
    else
      var t := ShortAt(buf, 2);
      Some(Header(ShortAt(buf, 0), t / 0x8000 % 2, t / 0x800 % 16, t / 0x400 % 2, t / 0x200 % 2, t / 0x100 % 2,
                  t / 0x80 % 2, t % 16, ShortAt(buf, 4), ShortAt(buf, 6), ShortAt(buf, 8), ShortAt(buf, 10)))
  }

  lemma FieldQr(t: nat, q: nat, r: nat)
    requires t == 0x8000 * q + r && q < 2 && r < 0x8000
    ensures t / 0x8000 % 2 == q
  {
  }

  lemma FieldOpcode(t: nat, p: nat, q: nat, r: nat)
    requires t == 0x800 * (16 * p + q) + r && q < 16 && r < 0x800
    ensures t / 0x800 % 16 == q
  {
    assert t / 0x800 == 16 * p + q;
  }

  lemma FieldAa(t: nat, p: nat, q: nat, r: nat)
    requires t == 0x400 * (2 * p + q) + r && q < 2 && r < 0x400
    ensures t / 0x400 % 2 == q
  {
    assert t / 0x400 == 2 * p + q;
  }

  lemma FieldTc(t: nat, p: nat, q: nat, r: nat)
    requires t == 0x200 * (2 * p + q) + r && q < 2 && r < 0x200
    ensures t / 0x200 % 2 == q
  {
    assert t / 0x200 == 2 * p + q;
  }

  lemma FieldRd(t: nat, p: nat, q: nat, r: nat)
    requires t == 0x100 * (2 * p + q) + r && q < 2 && r < 0x100
    ensures t / 0x100 % 2 == q
  {
    assert t / 0x100 == 2 * p + q;
  }

  lemma FieldRa(t: nat, p: nat, q: nat, r: nat)
    requires t == 0x80 * (2 * p + q) + r && q < 2 && r < 0x80
    ensures t / 0x80 % 2 == q
  {
    assert t / 0x80 == 2 * p + q;
  }

  lemma FlagsRoundTrip(h: Header)
    requires InRange(h)
    ensures var t := Flags(h);
            t / 0x8000 % 2 == h.qr && t / 0x800 % 16 == h.opcode && t / 0x400 % 2 == h.aa && t / 0x200 % 2 == h.tc
            && t / 0x100 % 2 == h.rd && t / 0x80 % 2 == h.ra && t % 16 == h.rcode
  {
    var t := Flags(h);
    var p10 := 16 * h.qr + h.opcode;
    var p9 := 2 * p10 + h.aa;
    var p8 := 2 * p9 + h.tc;
    var p7 := 2 * p8 + h.rd;
    var r8 := 0x80 * h.ra + h.rcode;
    var r9 := 0x100 * h.rd + r8;
    var r10 := 0x200 * h.tc + r9;
    var r11 := 0x400 * h.aa + r10;
    FieldQr(t, h.qr, 0x800 * h.opcode + r11);
    FieldOpcode(t, h.qr, h.opcode, r11);
    FieldAa(t, p10, h.aa, r10);
    FieldTc(t, p9, h.tc, r9);
    FieldRd(t, p8, h.rd, r8);
    FieldRa(t, p7, h.ra, h.rcode);
    FieldRcode(t, 8 * (2 * p7 + h.ra), h.rcode);
  }

  lemma FieldRcode(t: nat, p: nat, q: nat)
    requires t == 16 * p + q && q < 16
    ensures t % 16 == q
  {
  }

  lemma HeaderRoundTrip(h: Header, rest: seq<Octet>)
    requires InRange(h)
    ensures HeaderUnpack(HeaderPack(h) + rest) == Some(h)
  {
    FlagsRoundTrip(h);
    var b := HeaderPack(h) + rest;
    assert b[0..2] == ShortPack(h.id) && b[2..4] == ShortPack(Flags(h)) && b[4..6] == ShortPack(h.qdcount);
    assert b[6..8] == ShortPack(h.ancount) && b[8..10] == ShortPack(h.nscount) && b[10..12] == ShortPack(h.arcount);
    ShortSlice(b, 0);
    ShortSlice(b, 2);
    ShortSlice(b, 4);
    ShortSlice(b, 6);
    ShortSlice(b, 8);
    ShortSlice(b, 10);
  }

  lemma ShortSlice(b: seq<Octet>, off: nat)
    requires off + 2 <= |b|
    ensures forall n: Short | b[off..off + 2] == ShortPack(n) :: ShortAt(b, off) == n
  {
    forall n: Short | b[off..off + 2] == ShortPack(n) ensures ShortAt(b, off) == n {
      assert b[off] == b[off..off + 2][0] && b[off + 1] == b[off..off + 2][1];
    }
  }

  // ===== packing names =====

  /** How far the text goes up to a dot. */
  function Run(s: seq<Octet>): (n: nat)
    ensures n <= |s| && (n < |s| ==> s[n] == DOT) && forall i | 0 <= i < n :: s[i] != DOT
  {
    if s == [] || s[0] == DOT then 0 else 1 + Run(s[1..])
  }

  /** What strtok finds between dots: maximal runs without dots. */
  function Tokens(s: seq<Octet>): seq<Label>
    decreases |s|
  {
    if s == [] then []
    else if s[0] == DOT then Tokens(s[1..])
    else [s[..Run(s)]] + Tokens(s[Run(s)..])
  }

  /** rfc1035LabelPack */
  function LabelPack(l: Label): seq<Octet> {
    var n := if |l| > MAXLABELSZ then MAXLABELSZ else |l|;
    [n] + l[..n]
  }

  function LabelsPack(ls: seq<Label>): seq<Octet> {
    if ls == [] then [] else LabelPack(ls[0]) + LabelsPack(ls[1..])
  }

  /** rfc1035NamePack: the labels strtok finds, and the empty one. */
  method NamePack(name: seq<Octet>) returns (packed: seq<Octet>)
    ensures packed == LabelsPack(Tokens(name)) + [0]
  {
    packed := [];
    var rest := name;
    while rest != []
      invariant LabelsPack(Tokens(name)) == packed + LabelsPack(Tokens(rest))
      decreases |rest|
    {
      if rest[0] == DOT {
        rest := rest[1..];
      } else {
        var n := Run(rest);
        assert ([rest[..n]] + Tokens(rest[n..]))[1..] == Tokens(rest[n..]);
        packed := packed + LabelPack(rest[..n]);
        rest := rest[n..];
      }
    }
    packed := packed + [0];
  }

  /** Labels that a query can carry. */
  ghost predicate Proper(ls: seq<Label>) {
    forall i | 0 <= i < |ls| :: 0 < |ls[i]| <= MAXLABELSZ && DOT !in ls[i]
  }

  /** The first 63 octets of a label. */
  function Cut(l: Label): (c: Label)
    ensures c <= l && |c| == if |l| <= 63 then |l| else 63
  {
    if |l| <= 63 then l else l[..63]
  }

  function CutAll(ls: seq<Label>): seq<Label> { if ls == [] then [] else [Cut(ls[0])] + CutAll(ls[1..]) }

  lemma {:induction false} CutNone(ls: seq<Label>)
    requires Proper(ls)
    ensures CutAll(ls) == ls
  {
    if ls != [] {
      CutNone(ls[1..]);
      assert ls == [ls[0]] + ls[1..];
    }
  }

  ghost predicate NoneEmpty(ls: seq<Label>) { forall i | 0 <= i < |ls| :: ls[i] != [] }

  lemma {:induction false} TokensNotEmpty(s: seq<Octet>)
    ensures NoneEmpty(Tokens(s))
    decreases |s|
  {
    if s != [] {
      if s[0] == DOT { TokensNotEmpty(s[1..]); } else { TokensNotEmpty(s[Run(s)..]); }
    }
  }

  /** A packed name in a message means its labels, each cut to 63 octets. */
  lemma {:induction false} PackedDenotes(pre: seq<Octet>, ls: seq<Label>, post: seq<Octet>)
    requires NoneEmpty(ls)
    ensures var buf := pre + LabelsPack(ls) + [0] + post;
            Denotes(buf, |pre|, CutAll(ls), 0) && NameEnd(buf, |pre|) == |pre| + |LabelsPack(ls)| + 1
    decreases |ls|
  {
    hide LabelPack, Denotes, NameEnd, Cut;
    var buf := pre + LabelsPack(ls) + [0] + post;
    if ls == [] {
      assert buf[|pre|] == 0;
      AtZero(buf, |pre|);
    } else {
      var l := ls[0];
      PackedDenotes(pre + LabelPack(l), ls[1..], post);
      FirstPacked(pre, l, LabelsPack(ls[1..]) + [0] + post);
      Regrouped(pre, LabelPack(l), LabelsPack(ls[1..]), [0], post);
      assert CutAll(ls)[1..] == CutAll(ls[1..]);
      AfterLabel(buf, |pre|, CutAll(ls));
    }
  }

  lemma AtZero(buf: seq<Octet>, off: nat)
    requires off < |buf| && buf[off] == 0
    ensures Denotes(buf, off, [], 0) && NameEnd(buf, off) == off + 1
  {
  }

  lemma AfterLabel(buf: seq<Octet>, off: nat, ls: seq<Label>)
    requires ls != [] && 0 < |ls[0]| <= MAXLABELSZ && off + 1 + |ls[0]| < |buf| && buf[off] == |ls[0]|
    requires buf[off + 1..off + 1 + |ls[0]|] == ls[0] && Denotes(buf, off + 1 + |ls[0]|, ls[1..], 0)
    ensures Denotes(buf, off, ls, 0) && NameEnd(buf, off) == NameEnd(buf, off + 1 + |ls[0]|)
  {
  }

  lemma Regrouped(a: seq<Octet>, b: seq<Octet>, c: seq<Octet>, d: seq<Octet>, e: seq<Octet>)
    ensures a + (b + c) + d + e == a + b + c + d + e == a + b + (c + d + e)
  {
  }

  lemma FirstPacked(pre: seq<Octet>, l: Label, post: seq<Octet>)
    requires l != []
    ensures var buf, c := pre + LabelPack(l) + post, Cut(l);
            0 < |c| <= MAXLABELSZ && |LabelPack(l)| == 1 + |c| && buf[|pre|] == |c|
              && buf[|pre| + 1..|pre| + 1 + |c|] == c
  {
    assert LabelPack(l) == [|Cut(l)|] + Cut(l);
  }

  // ===== host names =====

  /** The text of proper labels, with or without a final dot. */
  ghost predicate HostName(name: seq<Octet>, ls: seq<Label>) {
    Proper(ls) && (name == Dotted(ls) || name + [DOT] == Dotted(ls))
  }

  lemma RunOf(l: Label, rest: seq<Octet>)
    requires DOT !in l && (rest == [] || rest[0] == DOT)
    ensures Run(l + rest) == |l|
  {
    var s := l + rest;
    assert forall i | 0 <= i < |l| :: s[i] == l[i];
    if rest != [] { assert s[|l|] == DOT; }
  }

  lemma {:induction false} TokensDotted(ls: seq<Label>)
    requires Proper(ls)
    ensures Tokens(Dotted(ls)) == ls
    decreases |ls|
  {
    if ls != [] {
      var l, rest := ls[0], [DOT] + Dotted(ls[1..]);
      assert Dotted(ls) == l + rest;
      TokensLabel(l, rest);
      TokensDotted(ls[1..]);
      assert rest[1..] == Dotted(ls[1..]);
      assert ls == [l] + ls[1..];
    }
  }

  lemma TokensLabel(l: Label, rest: seq<Octet>)
    requires l != [] && DOT !in l && (rest == [] || rest[0] == DOT)
    ensures Tokens(l + rest) == [l] + Tokens(rest)
  {
    RunOf(l, rest);
    assert (l + rest)[0] == l[0] && (l + rest)[..|l|] == l && (l + rest)[|l|..] == rest;
  }

  /** strtok finds just the labels of a host name. */
  lemma {:induction false} TokensHostName(name: seq<Octet>, ls: seq<Label>)
    requires HostName(name, ls)
    ensures Tokens(name) == ls
    decreases |ls|
  {
    if name == Dotted(ls) {
      TokensDotted(ls);
    } else {
      var l := ls[0];
      if |ls| == 1 {
        assert ls[1..] == [];
        assert Dotted(ls) == l + [DOT] + [];
        assert name == (name + [DOT])[..|name|] == l;
        assert l + [] == l;
        TokensLabel(l, []);
        assert ls == [l];
      } else {
        var rest := Dotted(ls[1..]);
        DottedEnds(ls[1..]);
        var tail := rest[..|rest| - 1];
        assert rest == tail + [DOT];
        assert Dotted(ls) == l + ([DOT] + tail) + [DOT];
        assert name == (name + [DOT])[..|name|] == l + ([DOT] + tail);
        TokensHostName(tail, ls[1..]);
        TokensLabel(l, [DOT] + tail);
        assert ([DOT] + tail)[1..] == tail;
        assert ls == [l] + ls[1..];
      }
    }
  }

  // ===== queries =====

  datatype Query = Query(name: seq<Octet>, qtype: Short, qclass: Short)

  /** The octets of a query message. */
  function QueryMessage(name: seq<Octet>, qid: Short, qtype: Short): seq<Octet> {
    HeaderPack(QueryHeader(qid)) + (LabelsPack(Tokens(name)) + [0]) + (ShortPack(qtype) + ShortPack(CLASS_IN))
  }

  /** The query as the caller keeps it. */
  function KeptQuery(name: seq<Octet>, qtype: Short): Query {
    Query(if |name| < MAXHOSTNAMESZ then name else name[..MAXHOSTNAMESZ - 1], qtype, CLASS_IN)
  }

  /** The name is kept whole if it fits the 256 octets with its final zero, and else its first 255 octets. */
  lemma KeptName(name: seq<Octet>, qtype: Short)
    ensures var kept := KeptQuery(name, qtype).name;
            kept <= name && if |name| < 256 then kept == name else |kept| == 255
  {
  }

  /** The builders' common part: the message, and the query. */
  method BuildQuery(name: seq<Octet>, qid: Short, qtype: Short) returns (buf: seq<Octet>, query: Query)
    ensures buf == QueryMessage(name, qid, qtype) && query == KeptQuery(name, qtype)
  {
    var packed := NamePack(name);
    buf := HeaderPack(QueryHeader(qid)) + packed + (ShortPack(qtype) + ShortPack(CLASS_IN));
    query := KeptQuery(name, qtype);
  }

  /** The header of a query: its id, recursion desired, and one question. */
  lemma QueryHeaderOctets(qid: Short)
    ensures HeaderPack(QueryHeader(qid)) == [qid / 0x100, qid % 0x100, 1, 0, 0, 1, 0, 0, 0, 0, 0, 0]
  {
    assert Flags(QueryHeader(qid)) == 0x100;
    assert ShortPack(0x100) == [1, 0] && ShortPack(1) == [0, 1] && ShortPack(0) == [0, 0];
  }

  function QueryHeader(qid: Short): (h: Header)
    ensures InRange(h)
  {
    Header(qid, 0, 0, 0, 0, 1, 0, 0, 1, 0, 0, 0)
  }

  // A name in a message, unpacked into a buffer for host names.

  predicate HostOk(buf: seq<Octet>, off: nat) {
    Brims(buf, off, MAXHOPS, MAXHOSTNAMESZ) || Fits(buf, off, MAXHOPS, MAXHOSTNAMESZ)
  }

  function HostLabels(buf: seq<Octet>, off: nat): seq<Label> { Kept(buf, off, MAXHOPS, MAXHOSTNAMESZ) }

  function HostText(buf: seq<Octet>, off: nat): seq<Octet> {
    Text(HostLabels(buf, off), KeepsDot(buf, off, MAXHOPS, MAXHOSTNAMESZ))
  }

  function HostStop(buf: seq<Octet>, off: nat): nat { Stop(buf, off, MAXHOSTNAMESZ) }

  /** A name followed by type and class. */
  predicate HasQuery(buf: seq<Octet>, off: nat) { HostOk(buf, off) && HostStop(buf, off) + 4 <= |buf| }

  /** rfc1035QueryUnpack */
  method QueryUnpack(buf: seq<Octet>, start: nat) returns (query: Option<Query>, off: nat)
    ensures query.Some? <==> HasQuery(buf, start)
    ensures query.Some? ==> |query.value.name| < MAXHOSTNAMESZ
    ensures query.Some? ==>
              off == HostStop(buf, start) + 4
              && query == Some(Query(HostText(buf, start), ShortAt(buf, off - 4), ShortAt(buf, off - 2)))
  {
    var ok, name, rdlength;
    ok, off, name, rdlength := NameUnpack(buf, start, MAXHOSTNAMESZ, 0);
    if !ok { return None, off; }
    if off + 4 > |buf| { return None, off; }
    query := Some(Query(name, ShortAt(buf, off), ShortAt(buf, off + 2)));
    off := off + 4;
  }

  /** What rfc1035MessageUnpack comes to before any answer records: an error, or the header and the query. */
  datatype Unpacked = Corrupt | Refused(header: Header, query: Query) | NoAnswers(header: Header, query: Query)
                    | Answers(header: Header, query: Query, off: nat)

  /** A header that announces one query, and the query. */
  predicate AsksOnce(buf: seq<Octet>) {
    HeaderUnpack(buf).Some? && HeaderUnpack(buf).value.qdcount == 1 && HasQuery(buf, 12)
  }

  /** rfc1035MessageUnpack up to the answer records. */
  method MessageUnpack(buf: seq<Octet>) returns (r: Unpacked)
    ensures r != Corrupt <==> AsksOnce(buf)
    ensures r != Corrupt ==>
              var e := HostStop(buf, 12);
              && HeaderUnpack(buf) == Some(r.header)
              && r.query == Query(HostText(buf, 12), ShortAt(buf, e), ShortAt(buf, e + 2))
              && (r.Refused? <==> r.header.rcode != 0)
              && (r.NoAnswers? <==> r.header.rcode == 0 && r.header.ancount == 0)
              && (r.Answers? ==> r.off == e + 4)
  {
    var h := HeaderUnpack(buf);
    if h.None? { return Corrupt; }
    if h.value.qdcount != 1 { return Corrupt; }
    var q, off := QueryUnpack(buf, 12);
    if q.None? { return Corrupt; }
    if h.value.rcode != 0 { return Refused(h.value, q.value); }
    if h.value.ancount == 0 { return NoAnswers(h.value, q.value); }
    r := Answers(h.value, q.value, off);
  }

  // ===== comparing queries =====

  function Lower(c: Octet): Octet { if 65 <= c <= 90 then c + 32 else c }

  predicate Letter(c: Octet) { 65 <= c <= 90 || 97 <= c <= 122 }

  /** Octets compare as equal if they are the same or the two cases of one letter. */
  lemma LowerTells(a: Octet, b: Octet)
    ensures Lower(a) == Lower(b) <==> a == b || (Letter(a) && Letter(b) && (a - b == 32 || b - a == 32))
  {
  }

  ghost predicate SameLetters(a: seq<Octet>, b: seq<Octet>) {
    |a| == |b| && forall i | 0 <= i < |a| :: Lower(a[i]) == Lower(b[i])
  }

  /** Without dots at the end. */
  function Trim(s: seq<Octet>): seq<Octet> {
    if s != [] && s[|s| - 1] == DOT then Trim(s[..|s| - 1]) else s
  }

  /** It is what is left when all dots at the end are taken off. */
  lemma {:induction false} TrimTakesDots(s: seq<Octet>)
    ensures Trim(s) <= s && (forall i | |Trim(s)| <= i < |s| :: s[i] == DOT)
    ensures Trim(s) != [] ==> Trim(s)[|Trim(s)| - 1] != DOT
  {
    if s != [] && s[|s| - 1] == DOT { TrimTakesDots(s[..|s| - 1]); }
  }

  method TrimmedLength(s: seq<Octet>) returns (n: nat)
    ensures n <= |s| && s[..n] == Trim(s)
  {
    n := |s|;
    assert s[..n] == s;
    while n > 0 && s[n - 1] == DOT
      invariant n <= |s| && Trim(s[..n]) == Trim(s)
    {
      assert s[..n][..n - 1] == s[..n - 1];
      n := n - 1;
    }
  }

  /** rfc1035QueryCompare: equal but for the case of letters and, if the lengths differ, for final dots. */
  method QueryCompare(a: Query, b: Query) returns (differ: bool)
    ensures !differ <==> a.qtype == b.qtype && a.qclass == b.qclass
                         && if |a.name| == |b.name| then SameLetters(a.name, b.name)
                            else SameLetters(Trim(a.name), Trim(b.name))
  {
    if a.qtype != b.qtype { return true; }
    if a.qclass != b.qclass { return true; }
    var la, lb := |a.name|, |b.name|;
    if la != lb {
      la := TrimmedLength(a.name);
      lb := TrimmedLength(b.name);
    } else {
      assert a.name[..la] == a.name && b.name[..lb] == b.name;
    }
    if la != lb { return true; }
    ghost var x, y := a.name[..la], b.name[..lb];
    var i := 0;
    while i < la
      invariant 0 <= i <= la
      invariant forall j | 0 <= j < i :: Lower(x[j]) == Lower(y[j])
    {
      assert x[i] == a.name[i] && y[i] == b.name[i];
      if Lower(a.name[i]) != Lower(b.name[i]) { return true; }
      i := i + 1;
    }
    return false;
  }

  /** Texts of the same labels compare as equal. */
  lemma SameHost(a: seq<Octet>, b: seq<Octet>, ls: seq<Label>)
    requires HostName(a, ls) && HostName(b, ls)
    ensures if |a| == |b| then a == b else Trim(a) == Trim(b)
  {
    if |a| == |b| {
      assert a + [DOT] == b + [DOT] ==> a == (a + [DOT])[..|a|] == b;
    } else {
      if |a| < |b| { OneDotMore(a, b); } else { OneDotMore(b, a); }
    }
  }

  lemma OneDotMore(a: seq<Octet>, b: seq<Octet>)
    requires a + [DOT] == b
    ensures Trim(a) == Trim(b)
  {
    assert b[|b| - 1] == DOT && b[..|b| - 1] == a;
  }

  // ===== round trips =====

  /** Without pointers only the root keeps its dot, and it has none. */
  lemma {:induction false} StraightDot(buf: seq<Octet>, off: nat, ls: seq<Label>, hops: nat, none: bool)
    requires Denotes(buf, off, ls, 0)
    ensures FinalDot(buf, off, hops, none) == (none && ls == [])
    decreases |buf| - off
  {
    var c: int := buf[off];
    if c > 0 { StraightDot(buf, off + 1 + c, ls[1..], hops, false); }
  }

  lemma TextIsHost(ls: seq<Label>)
    requires Proper(ls)
    ensures HostName(Text(ls, false), ls) && Text(ls, ls == []) == Text(ls, false)
  {
    if ls != [] { DottedEnds(ls); }
  }

  /** What a name is sent as: what strtok finds, each label cut to 63 octets. */
  function SentLabels(name: seq<Octet>): seq<Label> { CutAll(Tokens(name)) }

  /** A built query, read back: for every name at all. */
  lemma BuiltReads(name: seq<Octet>, qid: Short, qtype: Short, buf: seq<Octet>)
    requires buf == QueryMessage(name, qid, qtype)
    ensures HeaderUnpack(buf) == Some(QueryHeader(qid)) && Read(buf, 12, MAXHOPS) == Some(SentLabels(name))
    ensures FinalDot(buf, 12, MAXHOPS, true) == (SentLabels(name) == [])
    ensures var e := NameEnd(buf, 12); e + 4 == |buf| && ShortAt(buf, e) == qtype && ShortAt(buf, e + 2) == CLASS_IN
  {
    hide HeaderPack, HeaderUnpack, Flags, LabelsPack, Tokens, NameEnd, Denotes, Read, Dotted, FinalDot, CutAll;
    var ts, ls := Tokens(name), SentLabels(name);
    TokensNotEmpty(name);
    var h, types := HeaderPack(QueryHeader(qid)), ShortPack(qtype) + ShortPack(CLASS_IN);
    var packed := LabelsPack(ts) + [0];
    assert buf == h + (packed + types);
    HeaderRoundTrip(QueryHeader(qid), packed + types);
    PackedDenotes(h, ts, types);
    assert buf == h + LabelsPack(ts) + [0] + types;
    ReadComplete(buf, 12, ls, 0, MAXHOPS);
    StraightDot(buf, 12, ls, MAXHOPS, true);
    var e := 12 + |LabelsPack(ts)| + 1;
    assert buf[e..e + 2] == ShortPack(qtype) && buf[e + 2..e + 4] == ShortPack(CLASS_IN);
    ShortSlice(buf, e);
    ShortSlice(buf, e + 2);
  }

  /** Building a query and unpacking the message gives its id, flags, type and class back, and the name as it
      was sent, if that is short enough; for a host name, the query also compares as equal. */
  method RoundTrip(name: seq<Octet>, qid: Short, qtype: Short) returns (r: Unpacked, differ: bool)
    requires |Dotted(SentLabels(name))| < MAXHOSTNAMESZ
    ensures r.NoAnswers? && r.header == QueryHeader(qid)
            && r.query == Query(Text(SentLabels(name), false), qtype, CLASS_IN)
    ensures (exists ls :: HostName(name, ls)) ==> !differ
  {
    hide HeaderPack, HeaderUnpack, Read, NameEnd, LabelsPack, Tokens, Dotted, Trim, FinalDot, Brims, CutAll, HostName;
    var buf, query := BuildQuery(name, qid, qtype);
    BuiltReads(name, qid, qtype, buf);
    BrimsOrFits(buf, 12, MAXHOPS, MAXHOSTNAMESZ);
    StopsAtEnd(buf, 12, MAXHOPS, MAXHOSTNAMESZ);
    r := MessageUnpack(buf);
    assert r.query.name == Text(SentLabels(name), false) by { RootText(SentLabels(name)); }
    differ := QueryCompare(query, r.query);
    if exists ls :: HostName(name, ls) {
      var ls :| HostName(name, ls);
      HostSent(name, ls);
      TextIsHost(ls);
      SameHost(name, r.query.name, ls);
    }
  }

  lemma RootText(ls: seq<Label>)
    ensures Text(ls, ls == []) == Text(ls, false)
  {
  }

  lemma HostSent(name: seq<Octet>, ls: seq<Label>)
    requires HostName(name, ls)
    ensures SentLabels(name) == ls && Proper(ls) && |name| <= |Dotted(ls)|
  {
    TokensHostName(name, ls);
    CutNone(ls);
  }

  // ===== the builders =====

  method BuildAQuery(name: seq<Octet>, qid: Short) returns (buf: seq<Octet>, query: Query)
    ensures buf == QueryMessage(name, qid, 1) && query == KeptQuery(name, 1)
  {
    buf, query := BuildQuery(name, qid, TYPE_A);
  }

  method BuildAAAAQuery(name: seq<Octet>, qid: Short) returns (buf: seq<Octet>, query: Query)
    ensures buf == QueryMessage(name, qid, 28) && query == KeptQuery(name, 28)
  {
    buf, query := BuildQuery(name, qid, TYPE_AAAA);
  }

  /** What %u prints. */
  function Decimal(n: nat): seq<Octet> {
    if n < 10 then [48 + n] else Decimal(n / 10) + [48 + n % 10]
  }

  function Value(digits: seq<Octet>): int {
    if digits == [] then 0 else 10 * Value(digits[..|digits| - 1]) + digits[|digits| - 1] - 48
  }

  /** Digits with the value n, without a leading zero. */
  lemma {:induction false} DecimalTells(n: nat)
    ensures Value(Decimal(n)) == n && Decimal(n) != []
    ensures (forall i | 0 <= i < |Decimal(n)| :: 48 <= Decimal(n)[i] <= 57) && (n > 0 ==> Decimal(n)[0] != 48)
  {
    if n < 10 {
      assert [48 + n][..0] == [];
    } else {
      DecimalTells(n / 10);
      var d := Decimal(n / 10);
      assert (d + [48 + n % 10])[..|d|] == d;
    }
  }

  const IN_ADDR: Label := [105, 110, 45, 97, 100, 100, 114]
  const ARPA: Label := [97, 114, 112, 97]

  type Address = i: int | 0 <= i < 0x1_0000_0000

  /** The labels of an IPv4 address, its least significant octet first. */
  function ReverseLabels(i: Address): seq<Label> {
    [Decimal(i % 0x100), Decimal(i / 0x100 % 0x100), Decimal(i / 0x1_0000 % 0x100), Decimal(i / 0x100_0000 % 0x100),
     IN_ADDR, ARPA]
  }

  lemma DecimalLabel(n: Octet)
    ensures 0 < |Decimal(n)| <= 3 && DOT !in Decimal(n)
  {
    if n >= 10 {
      var m: int := n / 10;
      assert m < 26;
      if m >= 10 { assert Decimal(m) == Decimal(m / 10) + [48 + m % 10] && m / 10 < 10; }
    }
  }

  /** The name of a reverse lookup is a host name that fits its buffer of 32 octets. */
  lemma ReverseIsHostName(i: Address)
    ensures var ls := ReverseLabels(i); HostName(Dotted(ls), ls) && |Dotted(ls)| < 32
  {
    hide Decimal;
    var ls := ReverseLabels(i);
    forall k | 0 <= k < 4 ensures 0 < |ls[k]| <= 3 && DOT !in ls[k] { ReverseLabel(i, k); }
    DottedSix(ls);
  }

  lemma ReverseLabel(i: Address, k: nat)
    requires k < 4
    ensures 0 < |ReverseLabels(i)[k]| <= 3 && DOT !in ReverseLabels(i)[k]
  {
    hide Decimal;
    DecimalLabel(i % 0x100);
    DecimalLabel(i / 0x100 % 0x100);
    DecimalLabel(i / 0x1_0000 % 0x100);
    DecimalLabel(i / 0x100_0000 % 0x100);
  }

  lemma DottedSix(ls: seq<Label>)
    requires |ls| == 6
    ensures Dotted(ls)
         == ls[0] + [DOT] + (ls[1] + [DOT] + (ls[2] + [DOT] + (ls[3] + [DOT] + (ls[4] + [DOT] + (ls[5] + [DOT])))))
  {
    assert ls[1..][1..] == ls[2..] && ls[2..][1..] == ls[3..] && ls[3..][1..] == ls[4..] && ls[4..][1..] == ls[5..];
    var last: seq<Label> := ls[5..];
    assert last[1..] == [];
    assert Dotted(ls[5..]) == ls[5] + [DOT];
    assert Dotted(ls[4..]) == ls[4] + [DOT] + Dotted(ls[5..]);
    assert Dotted(ls[3..]) == ls[3] + [DOT] + Dotted(ls[4..]);
    assert Dotted(ls[2..]) == ls[2] + [DOT] + Dotted(ls[3..]);
    assert Dotted(ls[1..]) == ls[1] + [DOT] + Dotted(ls[2..]);
  }

  /** rfc1035BuildPTRQuery, for an address in host order. */
  method BuildPTRQuery(i: Address, qid: Short) returns (buf: seq<Octet>, query: Query)
    ensures buf == QueryMessage(Dotted(ReverseLabels(i)), qid, 12)
    ensures query == Query(Dotted(ReverseLabels(i)), 12, 1)
  {
    hide Dotted, Tokens, LabelsPack;
    ReverseIsHostName(i);
    var rev := Dotted(ReverseLabels(i));
    buf, query := BuildQuery(rev, qid, TYPE_PTR);
  }

  // ===== two messages, octet by octet =====

  /** The query for the address of a.bc. */
  lemma AddressQuery()
    ensures QueryMessage([97, 46, 98, 99], 0x1234, 1)
         == [0x12, 0x34, 1, 0, 0, 1, 0, 0, 0, 0, 0, 0, 1, 97, 2, 98, 99, 0, 0, 1, 0, 1]
  {
    hide Tokens, HeaderPack, Dotted;
    QueryHeaderOctets(0x1234);
    var ls: seq<Label> := [[97], [98, 99]];
    assert Tokens([97, 46, 98, 99]) == ls by { TokensTwo(); }
    assert LabelsPack(ls) == LabelPack([97]) + LabelsPack([[98, 99]]);
    assert LabelsPack([[98, 99]]) == LabelPack([98, 99]) + [];
    assert LabelPack([97]) == [1, 97] && LabelPack([98, 99]) == [2, 98, 99];
  }

  lemma TokensTwo()
    ensures Tokens([97, 46, 98, 99]) == [[97], [98, 99]]
  {
    TokensLabel([98, 99], []);
    assert [98, 99] + [] == [98, 99];
    TokensLabel([97], [46, 98, 99]);
    assert [97] + [46, 98, 99] == [97, 46, 98, 99] && [46, 98, 99][1..] == [98, 99];
  }

  /** The query for the name of 127.0.0.1. */
  lemma NameQuery()
    ensures QueryMessage(Dotted(ReverseLabels(0x7F00_0001)), 0x1234, 12)
         == [0x12, 0x34, 1, 0, 0, 1, 0, 0, 0, 0, 0, 0]
          + ([1, 49, 1, 48, 1, 48, 3, 49, 50, 55] + [7, 105, 110, 45, 97, 100, 100, 114, 4, 97, 114, 112, 97] + [0])
          + [0, 12, 0, 1]
  {
    hide Tokens, HeaderPack, Dotted, ReverseLabels, LabelsPack;
    QueryHeaderOctets(0x1234);
    var ls := ReverseLabels(0x7F00_0001);
    ReverseIsHostName(0x7F00_0001);
    TokensHostName(Dotted(ls), ls);
    LoopbackPacked();
    assert ShortPack(12) + ShortPack(CLASS_IN) == [0, 12, 0, 1];
  }

  lemma LoopbackPacked()
    ensures LabelsPack(ReverseLabels(0x7F00_0001))
         == [1, 49, 1, 48, 1, 48, 3, 49, 50, 55] + [7, 105, 110, 45, 97, 100, 100, 114, 4, 97, 114, 112, 97]
  {
    hide ReverseLabels, LabelPack;
    LoopbackLabels();
    var tail: seq<Label> := [IN_ADDR, ARPA];
    TailPacked();
    var ls: seq<Label> := [[49], [48], [48], [49, 50, 55], IN_ADDR, ARPA];
    assert ls[1..][1..] == ls[2..] && ls[2..][1..] == ls[3..] && ls[3..][1..] == ls[4..] == tail;
    OneDigit(49);
    OneDigit(48);
    assert LabelPack([49, 50, 55]) == [3, 49, 50, 55] by { ThreeDigits(); }
    assert LabelsPack(ls[3..]) == [3, 49, 50, 55] + LabelsPack(tail);
    assert LabelsPack(ls[2..]) == [1, 48] + LabelsPack(ls[3..]);
    assert LabelsPack(ls[1..]) == [1, 48] + LabelsPack(ls[2..]);
    assert LabelsPack(ls) == [1, 49] + LabelsPack(ls[1..]);
  }

  lemma TailPacked()
    ensures LabelsPack([IN_ADDR, ARPA]) == [7, 105, 110, 45, 97, 100, 100, 114, 4, 97, 114, 112, 97]
  {
    var ls: seq<Label> := [IN_ADDR, ARPA];
    var last: seq<Label> := [ARPA];
    assert ls[1..] == last && last[1..] == [];
    assert LabelsPack(last) == [4, 97, 114, 112, 97] + [];
    assert LabelsPack(ls) == [7, 105, 110, 45, 97, 100, 100, 114] + LabelsPack(last);
  }

  lemma OneDigit(d: Octet)
    ensures LabelPack([d]) == [1, d]
  {
  }

  lemma ThreeDigits()
    ensures LabelPack([49, 50, 55]) == [3, 49, 50, 55]
  {
  }

  lemma LoopbackLabels()
    ensures ReverseLabels(0x7F00_0001) == [[49], [48], [48], [49, 50, 55], IN_ADDR, ARPA]
  {
    hide Decimal;
    LoopbackNumbers();
    LoopbackOctets();
  }

  lemma LoopbackNumbers()
    ensures Decimal(0) == [48] && Decimal(1) == [49] && Decimal(127) == [49, 50, 55]
  {
    assert Decimal(12) == [49, 50];
  }

  lemma LoopbackOctets()
    ensures 0x7F00_0001 % 0x100 == 1 && 0x7F00_0001 / 0x100 % 0x100 == 0
    ensures 0x7F00_0001 / 0x1_0000 % 0x100 == 0 && 0x7F00_0001 / 0x100_0000 % 0x100 == 127
  {
    assert 0x7F00_0001 / 0x100 == 0x7F_0000;
    assert 0x7F00_0001 / 0x1_0000 == 0x7F00;
    assert 0x7F00_0001 / 0x100_0000 == 0x7F;
  }
}
