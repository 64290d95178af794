/** Names and queries of the domain name system, as they are packed and unpacked. */
module Rfc1035 {
  import opened Options

  type Octet = b: int | 0 <= b < 256
  type Label = seq<Octet>

  const DOT: Octet := 46
  const MAXLABELSZ := 63
  const MAXHOSTNAMESZ := 256
  const MAXHOPS := 65            // pointers that one name may go through

  // ===== what a name in a message means: section 4.1.4 of RFC 1035 =====

  function Pointer(buf: seq<Octet>, off: nat): nat
    requires off + 1 < |buf| && buf[off] >= 192
  {
    var high: int, low: int := buf[off], buf[off + 1];
    (high - 192) * 256 + low
  }

  /** Two octets that begin with two ones, and the offset in the other fourteen bits. */
  lemma PointerIs(buf: seq<Octet>, off: nat, n: nat)
    requires off + 1 < |buf| && buf[off] >= 192 && n < 0x4000
    ensures Pointer(buf, off) == n <==> buf[off] == 0xC0 + n / 0x100 && buf[off + 1] == n % 0x100
  {
  }

  /** The name at off is ls, through this many pointers. */
  ghost predicate Denotes(buf: seq<Octet>, off: nat, ls: seq<Label>, hops: nat)
    decreases hops, |buf| - off
  {
    off < |buf| &&
    var c: int := buf[off];
    if c == 0 then ls == [] && hops == 0
    else if c <= MAXLABELSZ then
      off + 1 + c < |buf| && ls != [] && ls[0] == buf[off + 1..off + 1 + c] && Denotes(buf, off + 1 + c, ls[1..], hops)
    else c >= 192 && hops > 0 && off + 1 < |buf| && Denotes(buf, Pointer(buf, off), ls, hops - 1)
  }

  function Prepend(l: Label, r: Option<seq<Label>>): Option<seq<Label>> {
    match r case None => None case Some(ls) => Some([l] + ls)
  }

  /** The name at off, read through at most this many pointers. */
  function Read(buf: seq<Octet>, off: nat, hops: nat): Option<seq<Label>>
    decreases hops, |buf| - off
  {
    if off >= |buf| then None
    else
      var c: int := buf[off];
      if c == 0 then Some([])
      else if c <= MAXLABELSZ then
        if off + 1 + c >= |buf| then None
        else Prepend(buf[off + 1..off + 1 + c], Read(buf, off + 1 + c, hops))
      else if c >= 192 && hops > 0 && off + 1 < |buf| then Read(buf, Pointer(buf, off), hops - 1)
      else None
  }

  /** What is read is what the name means. */
  lemma {:induction false} ReadSound(buf: seq<Octet>, off: nat, hops: nat) returns (h: nat)
    requires Read(buf, off, hops).Some?
    ensures h <= hops && Denotes(buf, off, Read(buf, off, hops).value, h)
    decreases hops, |buf| - off
  {
    var c: int := buf[off];
    if c == 0 {
      h := 0;
    } else if c <= MAXLABELSZ {
      h := ReadSound(buf, off + 1 + c, hops);
      var rest := Read(buf, off + 1 + c, hops).value;
      assert ([buf[off + 1..off + 1 + c]] + rest)[1..] == rest;
    } else {
      var g := ReadSound(buf, Pointer(buf, off), hops - 1);
      h := g + 1;
    }
  }

  /** Whatever the name means is read, if it needs no more pointers than allowed. */
  lemma {:induction false} ReadComplete(buf: seq<Octet>, off: nat, ls: seq<Label>, h: nat, hops: nat)
    requires Denotes(buf, off, ls, h) && h <= hops
    ensures Read(buf, off, hops) == Some(ls)
    decreases h, |buf| - off
  {
    var c: int := buf[off];
    if c == 0 {
    } else if c <= MAXLABELSZ {
      ReadComplete(buf, off + 1 + c, ls[1..], h, hops);
      assert ls == [ls[0]] + ls[1..];
    } else {
      ReadComplete(buf, Pointer(buf, off), ls, h - 1, hops - 1);
    }
  }

  /** A name means one thing only. */
  lemma {:induction false} DenotesOne(buf: seq<Octet>, off: nat, ls: seq<Label>, hops: nat, ms: seq<Label>, more: nat)
    requires Denotes(buf, off, ls, hops) && Denotes(buf, off, ms, more)
    ensures ls == ms && hops == more
    decreases hops, |buf| - off
  {
    var c: int := buf[off];
    if c == 0 {
    } else if c <= MAXLABELSZ {
      DenotesOne(buf, off + 1 + c, ls[1..], hops, ms[1..], more);
      assert ls == [ls[0]] + ls[1..] && ms == [ms[0]] + ms[1..];
    } else {
      DenotesOne(buf, Pointer(buf, off), ls, hops - 1, ms, more - 1);
    }
  }

  /** Where the name at off ends in the message: after its zero octet or its first pointer. */
  function NameEnd(buf: seq<Octet>, off: nat): nat
    decreases |buf| - off
  {
    if off >= |buf| then off
    else
      var c: int := buf[off];
      if c == 0 then off + 1 else if c <= MAXLABELSZ then NameEnd(buf, off + 1 + c) else off + 2
  }

  // ===== the text of a name =====

  /** Every label with a dot behind it. */
  function Dotted(ls: seq<Label>): seq<Octet> {
    if ls == [] then [] else ls[0] + [DOT] + Dotted(ls[1..])
  }

  lemma {:induction false} DottedAppend(a: seq<Label>, b: seq<Label>)
    ensures Dotted(a + b) == Dotted(a) + Dotted(b)
  {
    if a == [] {
      assert a + b == b;
    } else {
      assert (a + b)[1..] == a[1..] + b;
      DottedAppend(a[1..], b);
    }
  }

  function PrependAll(ls: seq<Label>, r: Option<seq<Label>>): Option<seq<Label>> {
    match r case None => None case Some(ms) => Some(ls + ms)
  }

  lemma PrependMore(ls: seq<Label>, l: Label, r: Option<seq<Label>>)
    ensures PrependAll([], r) == r
    ensures PrependAll(ls, Prepend(l, r)) == PrependAll(ls + [l], r)
  {
    if r.Some? {
      assert [] + r.value == r.value;
      assert ls + ([l] + r.value) == ls + [l] + r.value;
    }
  }

  /** A label that does not fit makes the name too long. */
  lemma WontFit(ls: seq<Label>, l: Label, r: Option<seq<Label>>, ns: nat)
    requires |Dotted(ls)| + |l| + 1 > ns && r.Some?
    ensures |Dotted(PrependAll(ls, Prepend(l, r)).value)| > ns
  {
    DottedAppend(ls, [l] + r.value);
    DottedAppend([l], r.value);
    assert Dotted([l]) == l + [DOT] + Dotted([]);
  }

  lemma DottedEnds(ls: seq<Label>)
    requires ls != []
    ensures |Dotted(ls)| > 0 && Dotted(ls)[|Dotted(ls)| - 1] == DOT
  {
    var n := |ls| - 1;
    assert ls == ls[..n] + [ls[n]];
    DottedAppend(ls[..n], [ls[n]]);
    assert Dotted([ls[n]]) == ls[n] + [DOT] + Dotted([]);
  }

  // ===== unpacking =====

  /** The text that unpacking leaves: the last dot goes, unless it is to stay. */
  function Text(ls: seq<Label>, dot: bool): seq<Octet> {
    var t := Dotted(ls);
    if dot || t == [] then t else t[..|t| - 1]
  }

  /** The last dot stays: the name's last part, where none says that no label has come yet, is only the zero octet. */
  function FinalDot(buf: seq<Octet>, off: nat, hops: nat, none: bool): bool
    decreases hops, |buf| - off
  {
    off < |buf| &&
    var c: int := buf[off];
    if c == 0 then none
    else if c <= MAXLABELSZ then FinalDot(buf, off + 1 + c, hops, false)
    else c >= 192 && hops > 0 && off + 1 < |buf| && FinalDot(buf, Pointer(buf, off), hops - 1, true)
  }

  /** Some first labels of the name at off, with their dots, take exactly room octets. */
  predicate Brims(buf: seq<Octet>, off: nat, hops: nat, room: nat)
    decreases hops, |buf| - off
  {
    room > 0 && off < |buf| &&
    var c: int := buf[off];
    if c == 0 then false
    else if c <= MAXLABELSZ then
      off + 1 + c < |buf| && c + 1 <= room && (c + 1 == room || Brims(buf, off + 1 + c, hops, room - c - 1))
    else c >= 192 && hops > 0 && off + 1 < |buf| && Brims(buf, Pointer(buf, off), hops - 1, room)
  }

  /** Those labels. */
  function Filled(buf: seq<Octet>, off: nat, hops: nat, room: nat): (ls: seq<Label>)
    requires Brims(buf, off, hops, room)
    ensures |Dotted(ls)| == room
    decreases hops, |buf| - off
  {
    var c: int := buf[off];
    if c >= 192 then Filled(buf, Pointer(buf, off), hops - 1, room)
    else
      var rest := if c + 1 == room then [] else Filled(buf, off + 1 + c, hops, room - c - 1);
      var ls := [buf[off + 1..off + 1 + c]] + rest;
      assert ls[1..] == rest;
      ls
  }

  /** The name reads, and its text with a zero behind it takes no more than room octets. */
  predicate Fits(buf: seq<Octet>, off: nat, hops: nat, room: nat) {
    Read(buf, off, hops).Some? && |Dotted(Read(buf, off, hops).value)| < room
  }

  /** The labels that unpacking keeps: all of a name that fits, or those that fill the room. */
  function Kept(buf: seq<Octet>, off: nat, hops: nat, room: nat): seq<Label> {
    if Brims(buf, off, hops, room) then Filled(buf, off, hops, room)
    else match Read(buf, off, hops) case None => [] case Some(ls) => ls
  }

  predicate KeepsDot(buf: seq<Octet>, off: nat, hops: nat, room: nat) {
    !Brims(buf, off, hops, room) && FinalDot(buf, off, hops, true)
  }

  /** Where unpacking leaves the offset: at the name's end, or behind the label that fills the room. */
  function Stop(buf: seq<Octet>, off: nat, room: nat): nat
    decreases |buf| - off
  {
    if off >= |buf| then off
    else
      var c: int := buf[off];
      if c == 0 then off + 1
      else if c <= MAXLABELSZ then if c + 1 >= room then off + 1 + c else Stop(buf, off + 1 + c, room - c - 1)
      else off + 2
  }

  /** Labels that fill the room exactly are the beginning of a name that is too long for it. */
  lemma {:induction false} BrimsIsLong(buf: seq<Octet>, off: nat, hops: nat, room: nat, ls: seq<Label>, h: nat)
    requires Brims(buf, off, hops, room) && Denotes(buf, off, ls, h)
    ensures |Dotted(ls)| >= room
    decreases hops, |buf| - off
  {
    var c: int := buf[off];
    if c >= 192 {
      BrimsIsLong(buf, Pointer(buf, off), hops - 1, room, ls, h - 1);
    } else if c + 1 < room {
      BrimsIsLong(buf, off + 1 + c, hops, room - c - 1, ls[1..], h);
    }
  }

  lemma BrimsOrFits(buf: seq<Octet>, off: nat, hops: nat, room: nat)
    ensures !(Brims(buf, off, hops, room) && Fits(buf, off, hops, room))
  {
    if Brims(buf, off, hops, room) && Fits(buf, off, hops, room) {
      var h := ReadSound(buf, off, hops);
      BrimsIsLong(buf, off, hops, room, Read(buf, off, hops).value, h);
    }
  }

  /** For a name that fits, the offset is left at its end. */
  lemma {:induction false} StopsAtEnd(buf: seq<Octet>, off: nat, hops: nat, room: nat)
    requires Fits(buf, off, hops, room)
    ensures Stop(buf, off, room) == NameEnd(buf, off)
    decreases |buf| - off
  {
    var c: int := buf[off];
    if 0 < c <= MAXLABELSZ {
      var one, rest := buf[off + 1..off + 1 + c], Read(buf, off + 1 + c, hops).value;
      assert ([one] + rest)[1..] == rest;
      StopsAtEnd(buf, off + 1 + c, hops, room - c - 1);
    }
  }

  /** A pointer to the root leaves the dot before it standing. */
  lemma {:induction false} EmptyKeepsDot(buf: seq<Octet>, off: nat, hops: nat)
    requires Read(buf, off, hops) == Some([])
    ensures FinalDot(buf, off, hops, true)
    decreases hops, |buf| - off
  {
    if buf[off] >= 192 { EmptyKeepsDot(buf, Pointer(buf, off), hops - 1); }
  }

  /** All that unpacking a name into ns octets promises. */
  ghost predicate Done(buf: seq<Octet>, start: nat, hops: nat, ns: nat, ok: bool, off: nat, name: seq<Octet>,
                       rdlength: nat) {
    && (ok <==> Brims(buf, start, hops, ns) || Fits(buf, start, hops, ns))
    && (ok ==>
          && name == Text(Kept(buf, start, hops, ns), KeepsDot(buf, start, hops, ns)) && |name| < ns
          && rdlength == |Dotted(Kept(buf, start, hops, ns))|
          && off == Stop(buf, start, ns) && start < off <= |buf|)
  }

  /** The labels have been read, and the rest of the name is at off. */
  ghost predicate SoFar(buf: seq<Octet>, start: nat, hops: nat, ns: nat, labels: seq<Label>, off: nat) {
    && Read(buf, start, hops) == PrependAll(labels, Read(buf, off, hops))
    && FinalDot(buf, start, hops, true) == FinalDot(buf, off, hops, labels == [])
    && |Dotted(labels)| <= ns
    && (if labels == [] then off == start else start < off <= |buf|)
    && if |Dotted(labels)| == ns then
         Brims(buf, start, hops, ns) && Filled(buf, start, hops, ns) == labels && Stop(buf, start, ns) == off
       else
         var room := ns - |Dotted(labels)|;
         && Brims(buf, start, hops, ns) == Brims(buf, off, hops, room) && Stop(buf, start, ns) == Stop(buf, off, room)
         && (Brims(buf, off, hops, room) ==> Filled(buf, start, hops, ns) == labels + Filled(buf, off, hops, room))
  }

  lemma Begins(buf: seq<Octet>, start: nat, hops: nat, ns: nat)
    requires ns > 0
    ensures SoFar(buf, start, hops, ns, [], start) && Dotted([]) == []
  {
    PrependMore([], [], Read(buf, start, hops));
    if Brims(buf, start, hops, ns) { assert [] + Filled(buf, start, hops, ns) == Filled(buf, start, hops, ns); }
  }

  lemma OneLabel(ls: seq<Label>, l: Label)
    ensures Dotted(ls + [l]) == Dotted(ls) + l + [DOT]
  {
    DottedAppend(ls, [l]);
    assert Dotted([l]) == l + [DOT] + Dotted([]);
  }

  /** The functions of a name at a label. */
  lemma AtLabel(buf: seq<Octet>, off: nat, hops: nat, room: nat)
    requires off < |buf| && 0 < buf[off] <= MAXLABELSZ && off + 1 + buf[off] < |buf| && buf[off] + 1 <= room
    ensures var one, next, less := buf[off + 1..off + 1 + buf[off]], off + 1 + buf[off], room - buf[off] - 1;
            && Read(buf, off, hops) == Prepend(one, Read(buf, next, hops))
            && (forall none :: FinalDot(buf, off, hops, none) == FinalDot(buf, next, hops, false))
            && Brims(buf, off, hops, room) == (less == 0 || Brims(buf, next, hops, less))
            && Stop(buf, off, room) == (if less == 0 then next else Stop(buf, next, less))
            && (Brims(buf, off, hops, room) ==>
                  Filled(buf, off, hops, room) == [one] + if less == 0 then [] else Filled(buf, next, hops, less))
  {
    hide Prepend, Dotted;
  }

  /** The functions of a name at a pointer. */
  lemma AtPointer(buf: seq<Octet>, off: nat, hops: nat, room: nat)
    requires hops > 0 && off + 1 < |buf| && buf[off] >= 192 && room > 0
    ensures var ptr := Pointer(buf, off);
            && Read(buf, off, hops) == Read(buf, ptr, hops - 1)
            && (forall none :: FinalDot(buf, off, hops, none) == FinalDot(buf, ptr, hops - 1, true))
            && Brims(buf, off, hops, room) == Brims(buf, ptr, hops - 1, room)
            && Stop(buf, off, room) == off + 2
            && (Brims(buf, off, hops, room) ==> Filled(buf, off, hops, room) == Filled(buf, ptr, hops - 1, room))
  {
    hide Dotted;
  }

  /** A label that fits. */
  lemma GoesOn(buf: seq<Octet>, start: nat, hops: nat, ns: nat, labels: seq<Label>, off: nat)
    requires SoFar(buf, start, hops, ns, labels, off) && off < |buf| && 0 < buf[off] <= MAXLABELSZ
    requires off + 1 + buf[off] < |buf| && |Dotted(labels)| + buf[off] + 1 <= ns
    ensures var one := buf[off + 1..off + 1 + buf[off]];
            SoFar(buf, start, hops, ns, labels + [one], off + 1 + buf[off])
              && Dotted(labels + [one]) == Dotted(labels) + one + [DOT]
  {
    hide Dotted, Prepend, PrependAll, Read, FinalDot, Brims, Filled, Stop;
    var c: int := buf[off];
    var one, room := buf[off + 1..off + 1 + c], ns - |Dotted(labels)|;
    AtLabel(buf, off, hops, room);
    OneLabel(labels, one);
    PrependMore(labels, one, Read(buf, off + 1 + c, hops));
    if Brims(buf, off, hops, room) {
      var rest := if c + 1 == room then [] else Filled(buf, off + 1 + c, hops, room - c - 1);
      assert labels + ([one] + rest) == labels + [one] + rest;
    }
  }

  /** No name goes on at off: it is outside, reserved, cut off, or a pointer too many or to nowhere. */
  ghost predicate Unusable(buf: seq<Octet>, off: nat, hops: nat) {
    off < |buf| ==>
      var c: int := buf[off];
      c != 0 && if c <= MAXLABELSZ then off + 1 + c >= |buf|
                else c < 192 || hops == 0 || off + 1 >= |buf| || Pointer(buf, off) >= |buf|
  }

  lemma NoName(buf: seq<Octet>, off: nat, hops: nat, room: nat)
    requires Unusable(buf, off, hops)
    ensures Read(buf, off, hops) == None && !Brims(buf, off, hops, room)
  {
    if off < |buf| && buf[off] >= 192 && hops > 0 && off + 1 < |buf| {
      assert Read(buf, Pointer(buf, off), hops - 1) == None;
    }
  }

  lemma Fails(buf: seq<Octet>, start: nat, hops: nat, ns: nat, labels: seq<Label>, off: nat, at: nat,
              name: seq<Octet>, rdlength: nat)
    requires SoFar(buf, start, hops, ns, labels, off) && |Dotted(labels)| < ns
    requires Unusable(buf, off, hops) || (0 < buf[off] <= MAXLABELSZ && |Dotted(labels)| + buf[off] + 1 > ns)
    ensures Done(buf, start, hops, ns, false, at, name, rdlength)
  {
    hide Dotted, FinalDot, Filled, Stop;
    if Unusable(buf, off, hops) {
      NoName(buf, off, hops, ns - |Dotted(labels)|);
    } else {
      var c: int := buf[off];
      var rest := Read(buf, off + 1 + c, hops);
      if rest.Some? { WontFit(labels, buf[off + 1..off + 1 + c], rest, ns); }
    }
  }

  lemma TextAppend(a: seq<Label>, b: seq<Label>, dot: bool)
    requires dot || b != []
    ensures Text(a + b, dot) == Dotted(a) + Text(b, dot) && |Dotted(a + b)| == |Dotted(a)| + |Dotted(b)|
  {
    DottedAppend(a, b);
    if b != [] { DottedEnds(b); }
  }

  /** What is unpacked behind a pointer continues what was unpacked before it. */
  lemma Follows(buf: seq<Octet>, start: nat, hops: nat, ns: nat, labels: seq<Label>, off: nat,
                ok: bool, there: nat, inner: seq<Octet>, more: nat)
    requires SoFar(buf, start, hops, ns, labels, off) && |Dotted(labels)| < ns
    requires hops > 0 && off + 1 < |buf| && buf[off] >= 192
    requires Done(buf, Pointer(buf, off), hops - 1, ns - |Dotted(labels)|, ok, there, inner, more)
    ensures Done(buf, start, hops, ns, ok, off + 2, Dotted(labels) + inner, |Dotted(labels)| + more)
  {
    hide Dotted, Text, Read, FinalDot, Brims, Filled, Stop;
    var ptr, room := Pointer(buf, off), ns - |Dotted(labels)|;
    AtPointer(buf, off, hops, room);
    var r, rest := Read(buf, ptr, hops - 1), Kept(buf, ptr, hops - 1, room);
    if r.Some? { DottedAppend(labels, r.value); }
    if ok {
      SomethingFilled(buf, ptr, hops - 1, room);
      if r == Some([]) { EmptyKeepsDot(buf, ptr, hops - 1); }
      TextAppend(labels, rest, KeepsDot(buf, ptr, hops - 1, room));
    }
  }

  lemma SomethingFilled(buf: seq<Octet>, off: nat, hops: nat, room: nat)
    ensures Brims(buf, off, hops, room) ==> Filled(buf, off, hops, room) != []
  {
    if Brims(buf, off, hops, room) { assert |Dotted(Filled(buf, off, hops, room))| == room; }
  }

  /** A name whose zero octet is at off, or that filled the room. */
  lemma Stops(buf: seq<Octet>, start: nat, hops: nat, ns: nat, labels: seq<Label>, off: nat, ended: bool)
    requires SoFar(buf, start, hops, ns, labels, off) && 0 < ns
    requires if ended then off < |buf| && buf[off] == 0 && |Dotted(labels)| < ns else |Dotted(labels)| == ns
    ensures var t := Dotted(labels);
            Done(buf, start, hops, ns, true, if ended then off + 1 else off, if |t| > 0 then t[..|t| - 1] else t, |t|)
  {
    if labels != [] { DottedEnds(labels); }
    assert labels + [] == labels;
  }

  /** rfc1035NameUnpack. The name is the text before the terminating zero. */
  method NameUnpack(buf: seq<Octet>, start: nat, ns: nat, rdepth: nat)
    returns (ok: bool, off: nat, name: seq<Octet>, rdlength: nat)
    requires ns > 0 && rdepth <= MAXHOPS
    ensures Done(buf, start, MAXHOPS - rdepth, ns, ok, off, name, rdlength)
    ensures |name| <= ns       // what was written, also to a message that is rejected
    decreases MAXHOPS - rdepth
  {
    hide Done, SoFar, Dotted, Read, Brims, FinalDot;
    ghost var hops, labels := MAXHOPS - rdepth, [];
    ok, off, name, rdlength := false, start, [], 0;
    Begins(buf, start, hops, ns);
    var c: int := 1;
    while c > 0 && |name| < ns
      invariant c > 0 && |name| <= ns && name == Dotted(labels) && |name| == rdlength && !ok
      invariant SoFar(buf, start, hops, ns, labels, off)
      decreases |buf| - off
    {
      if off >= |buf| {
        Fails(buf, start, hops, ns, labels, off, off, name, rdlength);
        return;
      }
      c := buf[off];
      ghost var here := off;
      if c > 191 {
        if rdepth > 64 {
          Fails(buf, start, hops, ns, labels, here, off, name, rdlength);
          return;
        }
        off := off + 2;
        if off > |buf| {
          Fails(buf, start, hops, ns, labels, here, off, name, rdlength);
          return;
        }
        var ptr := Pointer(buf, off - 2);
        if ptr >= |buf| {
          Fails(buf, start, hops, ns, labels, here, off, name, rdlength);
          return;
        }
        var there, inner, more;
        ok, there, inner, more := NameUnpack(buf, ptr, ns - |name|, rdepth + 1);
        Follows(buf, start, hops, ns, labels, here, ok, there, inner, more);
        name, rdlength := name + inner, rdlength + more;
        return;
      } else if c > MAXLABELSZ {
        Fails(buf, start, hops, ns, labels, here, off, name, rdlength);
        return;
      } else {
        off := off + 1;
        if c == 0 { break; }
        if c > ns - |name| - 1 {
          Fails(buf, start, hops, ns, labels, here, off, name, rdlength);
          return;
        }
        if off + c >= |buf| {
          Fails(buf, start, hops, ns, labels, here, off, name, rdlength);
          return;
        }
        GoesOn(buf, start, hops, ns, labels, here);
        labels := labels + [buf[off..off + c]];
        name := name + buf[off..off + c] + [DOT];
        off := off + c;
        rdlength := rdlength + c + 1;
      }
    }
    ok := true;
    Stops(buf, start, hops, ns, labels, if c == 0 then off - 1 else off, c == 0);
    if |name| > 0 { name := name[..|name| - 1]; }
  }

  /** A name whose text takes less than ns octets is unpacked, to what it means, exactly when it goes through
      no more pointers than allowed. */
  lemma UnpacksToMeaning(buf: seq<Octet>, start: nat, ls: seq<Label>, h: nat, hops: nat, ns: nat,
                         ok: bool, off: nat, name: seq<Octet>, rdlength: nat)
    requires Denotes(buf, start, ls, h) && |Dotted(ls)| < ns && Done(buf, start, hops, ns, ok, off, name, rdlength)
    ensures ok <==> h <= hops
    ensures ok ==>
              && name == Text(ls, FinalDot(buf, start, hops, true))
              && rdlength == |Dotted(ls)| && off == NameEnd(buf, start)
  {
    hide Dotted, FinalDot, Text, Stop, NameEnd;
    if Brims(buf, start, hops, ns) { BrimsIsLong(buf, start, hops, ns, ls, h); }
    if h <= hops {
      ReadComplete(buf, start, ls, h, hops);
      StopsAtEnd(buf, start, hops, ns);
    } else if Read(buf, start, hops).Some? {
      var g := ReadSound(buf, start, hops);
      DenotesOne(buf, start, ls, h, Read(buf, start, hops).value, g);
    }
  }
}
