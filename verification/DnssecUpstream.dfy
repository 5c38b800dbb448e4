/**
 * The same in memory: messages are copied deeply, sections of the copy are
 * compacted in place, and neither the request nor the upstream message changes.
 */
module DnssecUpstream {
  import opened Options
  import opened DnssecMessages

  class RR {
    const rrtype: nat
    const body: int
    var wantsDo: bool
    var udp: nat

    constructor (v: Value)
      requires v.Value?
      ensures ValueOf(this) == v
    {
      rrtype, body, wantsDo, udp := v.rrtype, v.body, v.wantsDo, v.udp;
    }
  }

  function ValueOf(r: RR?): Value
    reads r
  {
    if r == null then Nil else Value(r.rrtype, r.body, r.wantsDo, r.udp)
  }

  function Values(rs: seq<RR?>): (vs: seq<Value>)
    reads rs
    ensures |vs| == |rs| && forall i :: 0 <= i < |rs| ==> vs[i] == ValueOf(rs[i])
  {
    if rs == [] then [] else Values(rs[..|rs| - 1]) + [ValueOf(rs[|rs| - 1])]
  }

  /** A slice of records: the first `len` places of its backing array. */
  datatype Slice = Slice(data: array<RR?>, len: nat)

  predicate InBounds(s: Slice) {
    s.len <= s.data.Length
  }

  function Records(s: Slice): seq<RR?>
    requires InBounds(s)
    reads s.data
  {
    s.data[..s.len]
  }

  predicate KeptRecord(r: RR?) {
    r != null && !Proof(r.rrtype)
  }

  function KeepRecords(rs: seq<RR?>): (kept: seq<RR?>)
    ensures |kept| <= |rs| && forall r :: r in kept ==> r in rs
  {
    if rs == [] then []
    else KeepRecords(rs[..|rs| - 1]) + if KeptRecord(rs[|rs| - 1]) then [rs[|rs| - 1]] else []
  }

  lemma {:induction false} KeepRecordsValues(rs: seq<RR?>)
    ensures Values(KeepRecords(rs)) == Keep(Values(rs))
  {
    if rs != [] {
      var n := |rs| - 1;
      KeepRecordsValues(rs[..n]);
      assert Values(rs)[..n] == Values(rs[..n]);
      var kept := KeepRecords(rs);
      if KeptRecord(rs[n]) {
        assert kept[..|kept| - 1] == KeepRecords(rs[..n]);
      }
    }
  }

  /**
   * The compaction: kept records move to the front of the same array. The place
   * written is never ahead of the place read, so what is still unread is intact.
   */
  method StripRRSet(s: Slice) returns (t: Slice)
    requires InBounds(s)
    modifies s.data
    ensures t.data == s.data && t.len <= s.len && InBounds(t)
    ensures Records(t) == KeepRecords(old(Records(s)))
    ensures forall i :: t.len <= i < s.data.Length ==> s.data[i] == old(s.data[i])
  {
    ghost var before := s.data[..s.len];
    var n := 0;
    for i := 0 to s.len
      invariant n <= i
      invariant s.data[..n] == KeepRecords(before[..i])
      invariant forall k :: n <= k < s.data.Length ==> k < i || s.data[k] == old(s.data[k])
      invariant forall k :: i <= k < s.len ==> s.data[k] == before[k]
      invariant forall k :: n <= k < i ==> s.data[k] == old(s.data[k])
    {
      assert before[..i + 1][..i] == before[..i];
      var r := s.data[i];
      if r == null || Proof(r.rrtype) { continue; }
      s.data[n] := r;
      n := n + 1;
    }
    assert before[..s.len] == before;
    t := Slice(s.data, n);
  }

  /** The same for what the records say. */
  method StripSection(s: Slice) returns (t: Slice)
    requires InBounds(s)
    modifies s.data
    ensures t.data == s.data && t.len <= s.len && InBounds(t)
    ensures Records(t) == KeepRecords(old(Records(s)))
    ensures Values(Records(t)) == Keep(old(Values(Records(s))))
  {
    hide Values, Keep;
    KeepRecordsValues(Records(s));
    ghost var kept := KeepRecords(Records(s));
    ghost var values := Values(kept);
    t := StripRRSet(s);
    SameValues(kept, values);
  }

  lemma SameValues(rs: seq<RR?>, vs: seq<Value>)
    requires |rs| == |vs| && forall i :: 0 <= i < |rs| ==> ValueOf(rs[i]) == vs[i]
    ensures Values(rs) == vs
  {
  }

  /** Changing one record changes one value, and nothing in the sections it is not part of. */
  method Update(r: RR, wantsDo: bool, udp: nat, ghost at: nat, ghost own: seq<RR?>, ghost others: seq<RR?>, ghost more: seq<RR?>)
    requires at < |own| && own[at] == r && Distinct(own) && r !in others && r !in more
    modifies r
    ensures r.wantsDo == wantsDo && r.udp == udp
    ensures Values(own) == old(Values(own))[at := Value(r.rrtype, r.body, wantsDo, udp)]
    ensures Values(others) == old(Values(others)) && Values(more) == old(Values(more))
  {
    hide Values;
    r.wantsDo, r.udp := wantsDo, udp;
    SameValues(own, old(Values(own))[at := Value(r.rrtype, r.body, wantsDo, udp)]);
    SameValues(others, old(Values(others)));
    SameValues(more, old(Values(more)));
  }

  /** A copy of a section with records of its own, none of them twice. */
  method CopySection(s: Slice) returns (t: Slice)
    requires InBounds(s)
    ensures fresh(t.data) && InBounds(t) && t.len == s.len == t.data.Length
    ensures forall r :: r in Records(t) && r != null ==> fresh(r)
    ensures Distinct(Records(t)) && Values(Records(t)) == old(Values(Records(s)))
  {
    var data := new RR?[s.len](_ => null);
    for i := 0 to s.len
      invariant forall k :: i <= k < s.len ==> data[k] == null
      invariant forall k :: 0 <= k < i && data[k] != null ==> fresh(data[k])
      invariant forall k :: 0 <= k < i ==> ValueOf(data[k]) == old(ValueOf(s.data[k]))
      invariant forall k, l :: 0 <= k < l < i && data[k] != null ==> data[k] != data[l]
      invariant unchanged(s.data) && forall k :: 0 <= k < s.len && s.data[k] != null ==> unchanged(s.data[k])
    {
      var r := s.data[i];
      if r != null {
        var copy := new RR(Value(r.rrtype, r.body, r.wantsDo, r.udp));
        data[i] := copy;
      }
    }
    t := Slice(data, s.len);
  }

  ghost predicate Distinct(rs: seq<RR?>) {
    forall i, j :: 0 <= i < j < |rs| && rs[i] != null ==> rs[i] != rs[j]
  }

  lemma KeepsDistinct(rs: seq<RR?>)
    requires Distinct(rs)
    ensures Distinct(KeepRecords(rs))
  {
    if rs != [] {
      var n := |rs| - 1;
      KeepsDistinct(rs[..n]);
      assert rs[n] != null ==> rs[n] !in rs[..n];
    }
  }

  method FindOpt(s: Slice) returns (opt: RR?)
    requires InBounds(s)
    ensures var at := OptAt(Values(Records(s)));
            if at.None? then opt == null else opt == Records(s)[at.value] && opt != null
  {
    ghost var vs := Values(Records(s));
    var i := s.len;
    while i > 0
      invariant 0 <= i <= s.len
      invariant forall k :: i <= k < s.len ==> !(vs[k].Value? && vs[k].rrtype == OPT)
    {
      i := i - 1;
      if s.data[i] != null && s.data[i].rrtype == OPT {
        return s.data[i];
      }
    }
    opt := null;
  }

  // -------------------------------------------------------------------- messages

  class Message {
    var ad: bool
    var cd: bool
    var questions: seq<nat>
    var answer: Slice
    var ns: Slice
    var extra: Slice

    ghost predicate WellFormed()
      reads this
    {
      InBounds(answer) && InBounds(ns) && InBounds(extra)
    }

    ghost function Arrays(): set<object>
      reads this
    {
      {answer.data, ns.data, extra.data}
    }

    /** The additional records, where the OPT record is. */
    ghost function ExtraRecords(): set<object>
      requires WellFormed()
      reads this, extra.data
    {
      set r: RR | r in Records(extra) :: r as object
    }

    ghost function View(): Contents
      requires WellFormed()
      reads this, Arrays(), Records(answer), Records(ns), Records(extra)
    {
      Contents(ad, cd, questions, Values(Records(answer)), Values(Records(ns)), Values(Records(extra)))
    }

    /** Three arrays, and additional records that are nowhere else. */
    ghost predicate Separate()
      requires WellFormed()
      reads this, Arrays()
    {
      && answer.data != ns.data && answer.data != extra.data && ns.data != extra.data
      && Distinct(Records(extra)) && Apart(Records(extra), Records(answer)) && Apart(Records(extra), Records(ns))
    }

    constructor (ad: bool, cd: bool, questions: seq<nat>, answer: Slice, ns: Slice, extra: Slice)
      ensures this.ad == ad && this.cd == cd && this.questions == questions
      ensures this.answer == answer && this.ns == ns && this.extra == extra
    {
      this.ad, this.cd, this.questions := ad, cd, questions;
      this.answer, this.ns, this.extra := answer, ns, extra;
    }

    method Copy() returns (m: Message)
      requires WellFormed()
      ensures m.WellFormed() && m.Separate() && m.View() == old(View())
      ensures fresh(m) && fresh(m.Arrays()) && fresh(m.ExtraRecords())
    {
      hide Values, Distinct, Apart;
      var a, n, e := CopySections(answer, ns, extra);
      m := new Message(ad, cd, questions, a, n, e);
    }

    method ClearDo()
      requires WellFormed() && Separate()
      modifies ExtraRecords()
      ensures WellFormed() && View() == old(View()).(extra := WithoutDo(old(View()).extra))
    {
      hide Values, OptAt;
      ghost var vs := Values(Records(extra));
      var opt := FindOpt(extra);
      if opt != null {
        ghost var at := OptAt(vs).value;
        assert Records(extra)[at] in Records(extra) && opt as object in ExtraRecords();
        Update(opt, false, opt.udp, at, Records(extra), Records(answer), Records(ns));
      }
    }

    method ClearAd()
      requires WellFormed()
      modifies this`ad
      ensures WellFormed() && View() == old(View()).(ad := false)
    {
      ad := false;
    }

    method SetFlags(ad: bool, cd: bool)
      requires WellFormed()
      modifies this`ad, this`cd
      ensures WellFormed() && View() == old(View()).(ad := ad, cd := cd)
    {
      this.ad, this.cd := ad, cd;
    }

    method SetDo()
      requires WellFormed() && Separate()
      modifies this`extra, ExtraRecords()
      ensures WellFormed() && View() == old(View()).(extra := WithDo(old(View()).extra))
    {
      hide Values, OptAt;
      ghost var vs := Values(Records(extra));
      var opt := FindOpt(extra);
      if opt != null {
        ghost var at := OptAt(vs).value;
        var udp := if opt.udp < UDP_SIZE then UDP_SIZE else opt.udp;
        assert Records(extra)[at] in Records(extra) && opt as object in ExtraRecords();
        Update(opt, true, udp, at, Records(extra), Records(answer), Records(ns));
      } else {
        var added := new RR(Value(OPT, 0, true, UDP_SIZE));
        extra := Append(extra, added);
        SameValues(Records(extra), vs + [Value(OPT, 0, true, UDP_SIZE)]);
      }
    }

    /** The section loops of a copy; no record changes. */
    method Strip()
      requires WellFormed() && Separate()
      modifies this, Arrays()
      ensures WellFormed() && Separate() && Arrays() == old(Arrays())
      ensures ExtraRecords() <= old(ExtraRecords())
      ensures var c := old(View());
              View() == c.(answer := Keep(c.answer), ns := Keep(c.ns), extra := Keep(c.extra))
    {
      hide KeepRecords, Distinct, Values, Keep, Apart;
      KeepsDistinct(Records(extra));
      KeepsApart(Records(extra), Records(answer));
      KeepsApart(Records(extra), Records(ns));
      var a, n, e := StripSections(answer, ns, extra);
      answer, ns, extra := a, n, e;
    }
  }

  method CopySections(answer: Slice, ns: Slice, extra: Slice) returns (a: Slice, n: Slice, e: Slice)
    requires InBounds(answer) && InBounds(ns) && InBounds(extra)
    ensures fresh({a.data, n.data, e.data}) && a.data != n.data && a.data != e.data && n.data != e.data
    ensures InBounds(a) && InBounds(n) && InBounds(e)
    ensures Distinct(Records(e)) && Apart(Records(e), Records(a)) && Apart(Records(e), Records(n))
    ensures forall r :: r in Records(e) && r != null ==> fresh(r)
    ensures Values(Records(a)) == old(Values(Records(answer))) && Values(Records(n)) == old(Values(Records(ns)))
    ensures Values(Records(e)) == old(Values(Records(extra)))
  {
    hide Values, Distinct;
    a := CopySection(answer);
    n := CopySection(ns);
    ghost var earlier, early := Records(a), Records(n);
    e := CopySection(extra);
    assert Records(a) == earlier && Records(n) == early;
  }

  method StripSections(answer: Slice, ns: Slice, extra: Slice) returns (a: Slice, n: Slice, e: Slice)
    requires InBounds(answer) && InBounds(ns) && InBounds(extra)
    requires answer.data != ns.data && answer.data != extra.data && ns.data != extra.data
    modifies answer.data, ns.data, extra.data
    ensures a.data == answer.data && n.data == ns.data && e.data == extra.data
    ensures InBounds(a) && InBounds(n) && InBounds(e)
    ensures Records(a) == KeepRecords(old(Records(answer))) && Values(Records(a)) == Keep(old(Values(Records(answer))))
    ensures Records(n) == KeepRecords(old(Records(ns))) && Values(Records(n)) == Keep(old(Values(Records(ns))))
    ensures Records(e) == KeepRecords(old(Records(extra))) && Values(Records(e)) == Keep(old(Values(Records(extra))))
  {
    hide KeepRecords, Values, Keep;
    a := StripSection(answer);
    n := StripSection(ns);
    e := StripSection(extra);
  }

  ghost predicate Apart(rs: seq<RR?>, others: seq<RR?>) {
    forall r :: r in rs && r != null ==> r !in others
  }

  lemma KeepsApart(rs: seq<RR?>, others: seq<RR?>)
    requires Apart(rs, others)
    ensures Apart(KeepRecords(rs), KeepRecords(others))
  {
  }

  /**
   * What the client is sent. There is nothing this method may modify: the message
   * from upstream, which the cache may hold, stays as it is.
   */
  method WriteMsg(message: Message, asksDnssec: bool, asksAd: bool) returns (sent: Message)
    requires message.WellFormed()
    ensures sent.WellFormed() && sent.View() == Reply(old(message.View()), asksDnssec, asksAd)
    ensures asksDnssec && asksAd ==> sent == message
    ensures !asksDnssec ==> fresh(sent) && fresh(sent.Arrays())
  {
    hide Message.Separate, Keep, WithoutDo, OptAt, Values, Distinct;
    sent := message;
    if !asksDnssec || !asksAd {
      sent := message.Copy();
    }
    if !asksDnssec {
      sent.Strip();
      sent.ClearDo();
    }
    if !asksAd && !asksDnssec {
      sent.ClearAd();
    }
  }

  method AsksForDnssec(request: Message) returns (asks: bool)
    requires request.WellFormed()
    ensures asks <==> AsksDnssec(request.View())
  {
    hide Values, OptAt, Proof;
    var opt := FindOpt(request.extra);
    if opt != null && opt.wantsDo {
      return true;
    }
    asks := AsksForProof(request.questions);
  }

  method AsksForProof(questions: seq<nat>) returns (asks: bool)
    ensures asks <==> exists i :: 0 <= i < |questions| && Proof(questions[i])
  {
    for i := 0 to |questions|
      invariant forall j :: 0 <= j < i ==> !Proof(questions[j])
    {
      if Proof(questions[i]) {
        return true;
      }
    }
    asks := false;
  }

  /** The request that goes upstream is a copy; the client's own is not modified. */
  method UpstreamRequest(request: Message) returns (upstream: Message, asksDnssec: bool, asksAd: bool)
    requires request.WellFormed()
    ensures upstream.WellFormed() && fresh(upstream) && upstream.View() == Upstream(old(request.View()))
    ensures (asksDnssec <==> AsksDnssec(old(request.View()))) && asksAd == old(request.ad)
  {
    hide Message.Separate, WithDo, OptAt, Values, Distinct;
    asksDnssec := AsksForDnssec(request);
    asksAd := request.ad;
    upstream := ValidatingCopy(request);
  }

  method ValidatingCopy(request: Message) returns (upstream: Message)
    requires request.WellFormed()
    ensures upstream.WellFormed() && fresh(upstream) && upstream.View() == Upstream(old(request.View()))
  {
    hide Message.Separate, WithDo, OptAt, Values, Distinct;
    upstream := request.Copy();
    upstream.SetDo();
    upstream.SetFlags(true, false);
  }

  /** Appending to a full slice moves it to a larger array. */
  method Append(s: Slice, r: RR?) returns (t: Slice)
    requires InBounds(s)
    ensures fresh(t.data) && InBounds(t) && Records(t) == Records(s) + [r]
  {
    var data := new RR?[s.len + 1](i requires 0 <= i <= s.len && s.len <= s.data.Length reads s.data => if i < s.len then s.data[i] else r);
    t := Slice(data, s.len + 1);
  }
}
