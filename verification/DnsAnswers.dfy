/** The answer records of a reply. */
module DnsAnswers {
  import opened DnsQuery
  import opened Options
  import opened Rfc1035

  // ===== what the records of a message mean: section 4.1.3 of RFC 1035 =====

  /** A record as its sender means it; target is the name that the data of a PTR record is. */
  datatype Answer = Answer(labels: seq<Label>, rtype: Short, rclass: Short, ttl: nat, data: seq<Octet>,
                           target: seq<Label>)

  /** The host name at off is ls, within what the unpacker allows. */
  ghost predicate Named(buf: seq<Octet>, off: nat, ls: seq<Label>) {
    |Dotted(ls)| < MAXHOSTNAMESZ && exists h | 0 <= h <= MAXHOPS :: Denotes(buf, off, ls, h)
  }

  function LongAt(buf: seq<Octet>, off: nat): nat
    requires off + 4 <= |buf|
  {
    0x1_0000 * ShortAt(buf, off) + ShortAt(buf, off + 2)
  }

  /** The most significant octet comes first. */
  lemma LongIs(buf: seq<Octet>, off: nat, n: nat)
    requires off + 4 <= |buf| && n < 0x1_0000_0000
    ensures LongAt(buf, off) == n <==>
              && buf[off] == n / 0x100_0000 && buf[off + 1] == n / 0x1_0000 % 0x100
              && buf[off + 2] == n / 0x100 % 0x100 && buf[off + 3] == n % 0x100
  {
    hide ShortAt;
    var high: Short, low: Short := n / 0x1_0000, n % 0x1_0000;
    ShortIs(buf, off, high);
    ShortIs(buf, off + 2, low);
    Halves(n);
  }

  lemma Halves(n: nat)
    ensures n / 0x1_0000 / 0x100 == n / 0x100_0000
    ensures n % 0x1_0000 / 0x100 == n / 0x100 % 0x100 && n % 0x1_0000 % 0x100 == n % 0x100
  {
    var high := n / 0x1_0000;
    var a, b := high / 0x100, high % 0x100;
    var c, d := n % 0x1_0000 / 0x100, n % 0x1_0000 % 0x100;
    assert n == 0x100_0000 * a + 0x1_0000 * b + 0x100 * c + d;
    Digits(a, b, c, d);
  }

  lemma Digits(a: nat, b: Octet, c: Octet, d: Octet)
    ensures var n := 0x100_0000 * a + 0x1_0000 * b + 0x100 * c + d;
            n / 0x100_0000 == a && n / 0x100 % 0x100 == c && n % 0x100 == d
  {
    var n, m := 0x100_0000 * a + 0x1_0000 * b + 0x100 * c + d, 0x1_0000 * a + 0x100 * b + c;
    assert n == 0x100 * m + d && n / 0x100 == m && n % 0x100 == d;
    assert m == 0x100 * (0x100 * a + b) + c;
    assert m % 0x100 == c;
  }

  /** The fields of an answer stand at e, after its name. */
  ghost predicate Fields(buf: seq<Octet>, e: nat, a: Answer) {
    && e + 10 + |a.data| <= |buf|
    && ShortAt(buf, e) == a.rtype && ShortAt(buf, e + 2) == a.rclass && LongAt(buf, e + 4) == a.ttl
    && ShortAt(buf, e + 8) == |a.data| && buf[e + 10..e + 10 + |a.data|] == a.data
    && (a.rtype == TYPE_PTR ==> Named(buf, e + 10, a.target) && NameEnd(buf, e + 10) <= e + 10 + |a.data|)
  }

  /** The answers stand in the message one after the other from off on. */
  ghost predicate Laid(buf: seq<Octet>, off: nat, answers: seq<Answer>)
    decreases |answers|
  {
    answers != [] ==>
      var e := NameEnd(buf, off);
      Named(buf, off, answers[0].labels) && Fields(buf, e, answers[0])
        && Laid(buf, e + 10 + |answers[0].data|, answers[1..])
  }

  // ===== records as they are unpacked =====

  datatype Record = Record(name: seq<Octet>, rtype: Short, rclass: Short, ttl: nat, rdlength: nat, rdata: seq<Octet>)

  ghost predicate TextOf(t: seq<Octet>, ls: seq<Label>) { t == Text(ls, true) || t == Text(ls, false) }

  /** The record holds what the answer says. */
  ghost predicate Holds(r: Record, a: Answer) {
    && TextOf(r.name, a.labels) && r.rtype == a.rtype && r.rclass == a.rclass && r.ttl == a.ttl
    && if a.rtype == TYPE_PTR then TextOf(r.rdata, a.target) && r.rdlength == |Dotted(a.target)|
       else r.rdata == a.data && r.rdlength == |a.data|
  }

  ghost predicate HoldAll(rs: seq<Record>, answers: seq<Answer>) {
    |rs| == |answers| && forall i | 0 <= i < |rs| :: Holds(rs[i], answers[i])
  }

  /** The length and the data that a record of this type keeps of n octets at off. */
  function DataAt(buf: seq<Octet>, off: nat, n: nat, rtype: Short): Option<(nat, seq<Octet>)>
    requires off + n <= |buf|
  {
    if rtype != TYPE_PTR then Some((n, buf[off..off + n]))
    else if !HostOk(buf, off) || HostStop(buf, off) > off + n then None
    else Some((|Dotted(HostLabels(buf, off))|, HostText(buf, off)))
  }

  /** The record at off as it is unpacked, and its end. */
  function RecordAt(buf: seq<Octet>, off: nat): Option<(Record, nat)> {
    var e := HostStop(buf, off);
    if !HostOk(buf, off) || e + 10 > |buf| || e + 10 + ShortAt(buf, e + 8) > |buf| then None
    else
      var n := ShortAt(buf, e + 8);
      match DataAt(buf, e + 10, n, ShortAt(buf, e))
      case None => None
      case Some(d) =>
        var name := HostText(buf, off);
        Some((Record(name, ShortAt(buf, e), ShortAt(buf, e + 2), LongAt(buf, e + 4), d.0, d.1), e + 10 + n))
  }

  /** At most n records from off on, up to the first that cannot be unpacked. */
  function Records(buf: seq<Octet>, off: nat, n: nat): seq<Record>
    decreases n
  {
    if n == 0 || off >= |buf| then []
    else
      match RecordAt(buf, off)
      case None => []
      case Some(r) => [r.0] + Records(buf, r.1, n - 1)
  }

  // ===== every answer is understood, and nothing else =====

  /** Labels of the host name at off fill the unpacker's 256 octets to the last. */
  predicate HostFull(buf: seq<Octet>, off: nat) { Brims(buf, off, MAXHOPS, MAXHOSTNAMESZ) }

  /** A name that the unpacker allows is unpacked to its labels; and to a name, unless the buffer is full. */
  lemma NamedIsHost(buf: seq<Octet>, off: nat, ls: seq<Label>)
    ensures Named(buf, off, ls) <==> HostOk(buf, off) && !HostFull(buf, off) && HostLabels(buf, off) == ls
    ensures Named(buf, off, ls) ==> HostStop(buf, off) == NameEnd(buf, off) && TextOf(HostText(buf, off), ls)
  {
    hide Dotted, Brims, Read, Denotes, NameEnd, Stop, Text, FinalDot;
    BrimsOrFits(buf, off, MAXHOPS, MAXHOSTNAMESZ);
    if Named(buf, off, ls) {
      var h :| 0 <= h <= MAXHOPS && Denotes(buf, off, ls, h);
      ReadComplete(buf, off, ls, h, MAXHOPS);
    } else if HostOk(buf, off) && !HostFull(buf, off) && HostLabels(buf, off) == ls {
      var h := ReadSound(buf, off, MAXHOPS);
    }
    if Fits(buf, off, MAXHOPS, MAXHOSTNAMESZ) { StopsAtEnd(buf, off, MAXHOPS, MAXHOSTNAMESZ); }
  }

  lemma AnswerIsRecord(buf: seq<Octet>, off: nat, a: Answer)
    requires Named(buf, off, a.labels) && Fields(buf, NameEnd(buf, off), a)
    ensures RecordAt(buf, off).Some? && !Full(buf, off)
    ensures RecordAt(buf, off).value.1 == NameEnd(buf, off) + 10 + |a.data| && Holds(RecordAt(buf, off).value.0, a)
  {
    hide Named, Dotted, HostText, HostOk, HostFull, HostLabels, HostStop, NameEnd, TextOf;
    NamedIsHost(buf, off, a.labels);
    NamedIsHost(buf, NameEnd(buf, off) + 10, a.target);
  }

  /** One of the names of the record at off fills its buffer. */
  predicate Full(buf: seq<Octet>, off: nat) {
    var e := HostStop(buf, off);
    HostFull(buf, off) || (e + 10 <= |buf| && ShortAt(buf, e) == TYPE_PTR && HostFull(buf, e + 10))
  }

  lemma RecordIsAnswer(buf: seq<Octet>, off: nat) returns (a: Answer)
    requires RecordAt(buf, off).Some? && !Full(buf, off)
    ensures Named(buf, off, a.labels) && Fields(buf, NameEnd(buf, off), a)
    ensures RecordAt(buf, off).value.1 == NameEnd(buf, off) + 10 + |a.data| && Holds(RecordAt(buf, off).value.0, a)
  {
    hide Named, Dotted, HostText, HostOk, HostFull, HostLabels, HostStop, NameEnd, TextOf;
    var e, ls := HostStop(buf, off), HostLabels(buf, off);
    var n, t, target := ShortAt(buf, e + 8), ShortAt(buf, e), HostLabels(buf, e + 10);
    a := Answer(ls, t, ShortAt(buf, e + 2), LongAt(buf, e + 4), buf[e + 10..e + 10 + n], target);
    NamedIsHost(buf, off, ls);
    NamedIsHost(buf, e + 10, target);
  }

  /** What is unpacked as a record stands there exactly when none of its names fills its buffer. */
  lemma StandsUnlessFull(buf: seq<Octet>, off: nat)
    requires RecordAt(buf, off).Some?
    ensures !Full(buf, off) <==> exists a :: Laid(buf, off, [a])
  {
    hide RecordAt, Full, Named, Fields, NameEnd;
    if !Full(buf, off) {
      var a := RecordIsAnswer(buf, off);
      assert Laid(buf, off, [a]);
    } else {
      forall a ensures !Laid(buf, off, [a]) {
        if Laid(buf, off, [a]) { AnswerIsRecord(buf, off, a); }
      }
    }
  }

  /** Four labels of 63 octets, and zeros. */
  function LongMessage(): (buf: seq<Octet>)
    ensures |buf| == 300
  {
    seq(300, i => if i == 0 || i == 64 || i == 128 || i == 192 then 63 else if 0 <= i < 256 then 97 else 0)
  }

  /** Such a record exists: it is unpacked, and it does not stand there. */
  lemma FullRecord()
    ensures var buf := LongMessage(); RecordAt(buf, 0).Some? && Full(buf, 0) && forall a :: !Laid(buf, 0, [a])
  {
    hide Laid, Dotted, Text, Filled;
    var buf := LongMessage();
    assert Brims(buf, 192, MAXHOPS, 64);
    assert Brims(buf, 128, MAXHOPS, 128);
    assert Brims(buf, 64, MAXHOPS, 192);
    assert Stop(buf, 192, 64) == 256;
    assert Stop(buf, 128, 128) == 256;
    assert Stop(buf, 64, 192) == 256;
    StandsUnlessFull(buf, 0);
  }

  /** Answers that stand in a message are all unpacked, in order, whatever comes after them. */
  lemma {:induction false} AllUnderstood(buf: seq<Octet>, off: nat, answers: seq<Answer>, n: nat)
    requires Laid(buf, off, answers) && |answers| <= n
    ensures |answers| <= |Records(buf, off, n)| <= n && HoldAll(Records(buf, off, n)[..|answers|], answers)
    decreases n
  {
    hide Named, Fields, NameEnd, RecordAt, Holds;
    if n > 0 && off < |buf| && RecordAt(buf, off).Some? { AllUnderstood(buf, RecordAt(buf, off).value.1, [], n - 1); }
    if answers != [] {
      var a, next := answers[0], NameEnd(buf, off) + 10 + |answers[0].data|;
      AnswerIsRecord(buf, off, a);
      InMessage(buf, off, a.labels);
      AllUnderstood(buf, next, answers[1..], n - 1);
      var rest := Records(buf, next, n - 1);
      assert Records(buf, off, n) == [RecordAt(buf, off).value.0] + rest;
      forall i | 0 <= i < |answers| ensures Holds(Records(buf, off, n)[i], answers[i]) {
        if i > 0 { assert Holds(rest[..|answers| - 1][i - 1], answers[1..][i - 1]); }
      }
    }
  }

  lemma InMessage(buf: seq<Octet>, off: nat, ls: seq<Label>)
    requires Named(buf, off, ls)
    ensures off < |buf|
  {
  }

  /** Some record among those unpacked is full. */
  predicate FullAmong(buf: seq<Octet>, off: nat, n: nat)
    decreases n
  {
    n > 0 && off < |buf| &&
    match RecordAt(buf, off)
    case None => false
    case Some(x) => Full(buf, off) || FullAmong(buf, x.1, n - 1)
  }

  /** Everything unpacked stands in the message, and where unpacking stops early no answer stands. */
  lemma {:induction false} OnlyAnswers(buf: seq<Octet>, off: nat, n: nat) returns (answers: seq<Answer>)
    requires !FullAmong(buf, off, n)
    ensures Laid(buf, off, answers) && HoldAll(Records(buf, off, n), answers)
    ensures |answers| < n ==> forall a :: !Laid(buf, off, answers + [a])
    decreases n
  {
    hide Named, Fields, NameEnd, RecordAt, Full, Holds;
    if n == 0 { return []; }
    if off >= |buf| || RecordAt(buf, off).None? {
      forall a ensures !Laid(buf, off, [] + [a]) { NotLaid(buf, off, a); }
      return [];
    }
    var a := RecordIsAnswer(buf, off);
    var next := NameEnd(buf, off) + 10 + |a.data|;
    var rest := OnlyAnswers(buf, next, n - 1);
    answers := [a] + rest;
    assert answers[1..] == rest;
    if |answers| < n {
      forall b ensures !Laid(buf, off, answers + [b]) {
        assert (answers + [b])[0] == a && (answers + [b])[1..] == rest + [b];
      }
    }
  }

  lemma NotLaid(buf: seq<Octet>, off: nat, a: Answer)
    requires off >= |buf| || RecordAt(buf, off).None?
    ensures !Laid(buf, off, [] + [a])
  {
    if Laid(buf, off, [] + [a]) {
      assert ([] + [a])[0] == a;
      InMessage(buf, off, a.labels);
      AnswerIsRecord(buf, off, a);
    }
  }

  // ===== unpacking =====

  /** rfc1035RRUnpack */
  method RRUnpack(buf: seq<Octet>, start: nat) returns (r: Option<Record>, off: nat)
    ensures match RecordAt(buf, start) case None => r == None case Some(x) => r == Some(x.0) && off == x.1
    ensures r.Some? ==> start < off <= |buf| && |r.value.name| < MAXHOSTNAMESZ
  {
    hide Brims, Dotted, Text, Stop, Kept, Fits, KeepsDot;
    r := None;
    var ok, name, rdlength;
    ok, off, name, rdlength := NameUnpack(buf, start, MAXHOSTNAMESZ, 0);
    if !ok { return; }
    if off + 10 > |buf| { return; }
    var rtype, rclass, ttl, n := ShortAt(buf, off), ShortAt(buf, off + 2), LongAt(buf, off + 4), ShortAt(buf, off + 8);
    off := off + 10;
    if off + n > |buf| { return; }
    var length, data := n, buf[off..off + n];
    if rtype == TYPE_PTR {
      var there;
      ok, there, data, length := NameUnpack(buf, off, MAXHOSTNAMESZ, 0);
      if !ok { return; }
      if there > off + n { return; }
    }
    off := off + n;
    r := Some(Record(name, rtype, rclass, ttl, length, data));
  }

  /** rfc1035MessageUnpack's loop over the answers. */
  method AnswersUnpack(buf: seq<Octet>, start: nat, ancount: nat) returns (rs: seq<Record>)
    ensures rs == Records(buf, start, ancount)
  {
    hide RecordAt;
    rs := [];
    var off: nat, i := start, 0;
    while i < ancount
      invariant 0 <= i <= ancount && Records(buf, start, ancount) == rs + Records(buf, off, ancount - i)
    {
      if off >= |buf| { return; }
      var r, next := RRUnpack(buf, off);
      if r.None? { return; }
      rs := rs + [r.value];
      off := next;
      i := i + 1;
    }
  }

  datatype Reply = Bad | Error(header: Header, query: Query) | Empty(header: Header, query: Query)
                 | Got(header: Header, query: Query, records: seq<Record>)

  /** The message is a reply to one question, without an error, and its answers begin at off. */
  ghost predicate Good(buf: seq<Octet>, h: Header, labels: seq<Label>, off: nat) {
    && HeaderUnpack(buf) == Some(h) && h.qdcount == 1 && h.rcode == 0
    && Named(buf, 12, labels) && off == NameEnd(buf, 12) + 4 <= |buf|
  }

  /** The reply is what these answers to this question say. */
  ghost predicate Says(r: Reply, h: Header, labels: seq<Label>, answers: seq<Answer>) {
    && r != Bad && r.header == h && TextOf(r.query.name, labels)
    && if answers == [] then r.Empty? else r.Got? && HoldAll(r.records, answers)
  }

  /** rfc1035MessageUnpack: a good reply whose announced answers all stand in it is unpacked to all of them. */
  method ReplyUnpack(buf: seq<Octet>) returns (r: Reply)
    ensures r != Bad ==> AsksOnce(buf) && HeaderUnpack(buf) == Some(r.header) && (r.Error? <==> r.header.rcode != 0)
    ensures AsksOnce(buf) ==>
              var h, e := HeaderUnpack(buf).value, HostStop(buf, 12);
              && (r != Bad ==> r.query == Query(HostText(buf, 12), ShortAt(buf, e), ShortAt(buf, e + 2)))
              && (r.Empty? <==> h.rcode == 0 && h.ancount == 0)
              && (h.rcode == 0 && h.ancount > 0 ==>
                    var rs := Records(buf, e + 4, h.ancount);
                    if rs == [] then r == Bad else r.Got? && r.records == rs)
              && (h.rcode != 0 ==> r.Error?)
    ensures forall h, labels, off, answers | Good(buf, h, labels, off) && Laid(buf, off, answers)
            && |answers| == h.ancount ::
              Says(r, h, labels, answers)
  {
    hide Laid, HeaderUnpack, TextOf, HoldAll, Named, NameEnd, HostOk, HostText, HostStop, HostLabels, Records;
    var m := MessageUnpack(buf);
    var rs := [];
    if m.Answers? { rs := AnswersUnpack(buf, m.off, m.header.ancount); }
    r := match m
         case Corrupt => Bad
         case Refused(header, query) => Error(header, query)
         case NoAnswers(header, query) => Empty(header, query)
         case Answers(header, query, _) => if rs == [] then Bad else Got(header, query, rs);
    forall h, labels, off, answers | Good(buf, h, labels, off) && Laid(buf, off, answers) && |answers| == h.ancount
      ensures Says(r, h, labels, answers)
    {
      NamedIsHost(buf, 12, labels);
      Answered(buf, off, answers);
      if answers != [] { SomeHeld(Records(buf, off, |answers|), answers); }
    }
  }

  lemma SomeHeld(rs: seq<Record>, answers: seq<Answer>)
    requires HoldAll(rs, answers) && answers != []
    ensures rs != []
  {
  }

  /** All announced answers stand there, so they are what was unpacked. */
  lemma Answered(buf: seq<Octet>, off: nat, answers: seq<Answer>)
    requires Laid(buf, off, answers)
    ensures HoldAll(Records(buf, off, |answers|), answers)
  {
    AllUnderstood(buf, off, answers, |answers|);
    assert Records(buf, off, |answers|)[..|answers|] == Records(buf, off, |answers|);
  }
}
