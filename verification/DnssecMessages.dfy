/**
 * DNS messages around a validating upstream, by their contents: what is asked
 * upstream and what a client gets back (section 3.2.1 of RFC 4035, section 5.8
 * of RFC 6840).
 */
module DnssecMessages {
  import opened Options
  import opened Thinning

  const OPT: nat := 41
  const RRSIG: nat := 46
  const NSEC: nat := 47
  const NSEC3: nat := 50
  const NSEC3PARAM: nat := 51
  const UDP_SIZE: nat := 1232

  /** A record, or a hole in a section. Only an OPT record uses the DO bit and the UDP size. */
  datatype Value = Nil | Value(rrtype: nat, body: int, wantsDo: bool, udp: nat)

  datatype Contents = Contents(
    ad: bool, cd: bool, questions: seq<nat>, answer: seq<Value>, ns: seq<Value>, extra: seq<Value>)

  predicate Proof(rrtype: nat) {
    rrtype in {RRSIG, NSEC, NSEC3, NSEC3PARAM}
  }

  predicate Kept(v: Value) {
    v.Value? && !Proof(v.rrtype)
  }

  function Keep(vs: seq<Value>): seq<Value> {
    if vs == [] then []
    else Keep(vs[..|vs| - 1]) + if Kept(vs[|vs| - 1]) then [vs[|vs| - 1]] else []
  }

  /** The OPT record that counts: the last one. */
  function OptAt(vs: seq<Value>): (at: Option<nat>)
    ensures at.Some? ==> at.value < |vs| && vs[at.value].Value? && vs[at.value].rrtype == OPT
    ensures at.Some? ==> forall i :: at.value < i < |vs| ==> !(vs[i].Value? && vs[i].rrtype == OPT)
    ensures at.None? ==> forall i :: 0 <= i < |vs| ==> !(vs[i].Value? && vs[i].rrtype == OPT)
  {
    if vs == [] then None
    else if vs[|vs| - 1].Value? && vs[|vs| - 1].rrtype == OPT then Some(|vs| - 1)
    else OptAt(vs[..|vs| - 1])
  }

  function WithoutDo(vs: seq<Value>): seq<Value> {
    var at := OptAt(vs);
    if at.None? then vs else vs[at.value := vs[at.value].(wantsDo := false)]
  }

  function WithDo(vs: seq<Value>): seq<Value> {
    match OptAt(vs)
    case None => vs + [Value(OPT, 0, true, UDP_SIZE)]
    case Some(at) => vs[at := vs[at].(wantsDo := true, udp := if vs[at].udp < UDP_SIZE then UDP_SIZE else vs[at].udp)]
  }

  /** The client asked for DNSSEC: by the DO bit, or by asking for a proof. */
  predicate AsksDnssec(request: Contents) {
    || (var at := OptAt(request.extra); at.Some? && request.extra[at.value].wantsDo)
    || exists i :: 0 <= i < |request.questions| && Proof(request.questions[i])
  }

  function Upstream(request: Contents): Contents {
    request.(cd := false, ad := true, extra := WithDo(request.extra))
  }

  function Reply(message: Contents, asksDnssec: bool, asksAd: bool): Contents {
    if asksDnssec then message
    else
      message.(ad := message.ad && asksAd, answer := Keep(message.answer), ns := Keep(message.ns),
               extra := WithoutDo(Keep(message.extra)))
  }

  // -------------------------------------------------------------- what they mean

  /** RRSIG, NSEC, NSEC3 and NSEC3PARAM (RFC 4034, RFC 5155). */
  predicate IsProof(rrtype: nat) {
    rrtype == 46 || rrtype == 47 || rrtype == 50 || rrtype == 51
  }

  /** A record that is there and is no proof. */
  predicate Stays(v: Value) {
    v.Value? && !IsProof(v.rrtype)
  }

  /** The last record of type OPT (RFC 6891) in a section. */
  ghost predicate LastOpt(vs: seq<Value>, i: nat) {
    i < |vs| && vs[i].Value? && vs[i].rrtype == 41 && forall j :: i < j < |vs| ==> !(vs[j].Value? && vs[j].rrtype == 41)
  }

  ghost predicate WantsDnssec(request: Contents) {
    || (exists i: nat :: LastOpt(request.extra, i) && request.extra[i].wantsDo)
    || exists i :: 0 <= i < |request.questions| && IsProof(request.questions[i])
  }

  lemma OptIsLast(vs: seq<Value>)
    ensures match OptAt(vs)
            case Some(at) => LastOpt(vs, at) && forall i: nat :: LastOpt(vs, i) ==> i == at
            case None => forall i: nat :: !LastOpt(vs, i)
  {
  }

  lemma AsksMeans(request: Contents)
    ensures AsksDnssec(request) <==> WantsDnssec(request)
  {
    OptIsLast(request.extra);
    assert forall i :: 0 <= i < |request.questions| ==> (Proof(request.questions[i]) <==> IsProof(request.questions[i]));
    hide LastOpt, OptAt, Proof, IsProof;
  }

  function Staying(): Value -> bool {
    (v: Value) => Stays(v)
  }

  /** The part of a section that stays, with the DO bit of its last OPT record cleared. */
  ghost predicate ThinnedExtra(at: seq<nat>, kept: seq<Value>, vs: seq<Value>) {
    exists same :: Thinned(at, same, vs, Staying()) && WithoutLastDo(kept, same)
  }

  ghost predicate WithoutLastDo(cleared: seq<Value>, vs: seq<Value>) {
    && |cleared| == |vs|
    && forall i: nat :: i < |vs| ==> cleared[i] == if LastOpt(vs, i) then vs[i].(wantsDo := false) else vs[i]
  }

  /** Exactly the records that are there and are no proof stay, in order. */
  lemma {:induction false} KeepPicks(vs: seq<Value>) returns (at: seq<nat>)
    ensures Thinned(at, Keep(vs), vs, Staying())
  {
    if vs == [] {
      at := [];
    } else {
      var n := |vs| - 1;
      var front, last := vs[..n], vs[n];
      at := KeepPicks(front);
      assert vs == front + [last];
      ThinnedNext(at, Keep(front), front, last, Staying());
      KeepNext(front, last);
      hide Stays, Thinned, Keep;
      if Stays(last) { at := at + [n]; }
    }
  }

  lemma KeepNext(front: seq<Value>, last: Value)
    ensures Keep(front + [last]) == if Stays(last) then Keep(front) + [last] else Keep(front)
  {
    assert (front + [last])[..|front|] == front;
  }

  lemma KeepExtra(vs: seq<Value>) returns (at: seq<nat>)
    ensures ThinnedExtra(at, WithoutDo(Keep(vs)), vs)
  {
    at := KeepPicks(vs);
    OptIsLast(Keep(vs));
    hide Keep, LastOpt, Thinned, OptAt;
    assert WithoutLastDo(WithoutDo(Keep(vs)), Keep(vs));
  }

  /** What a client that wants no DNSSEC gets of a message. */
  ghost predicate Plain(reply: Contents, message: Contents) {
    && (exists at :: Thinned(at, reply.answer, message.answer, Staying()))
    && (exists at :: Thinned(at, reply.ns, message.ns, Staying()))
    && (exists at :: ThinnedExtra(at, reply.extra, message.extra))
  }

  /**
   * A client that wants DNSSEC gets the message as it is. Any other one gets each
   * section without its proofs and holes, in order, without the DO bit, and the AD
   * bit only if it asked for that.
   */
  lemma ReplyMeans(request: Contents, message: Contents)
    ensures var reply := Reply(message, AsksDnssec(request), request.ad);
            && (WantsDnssec(request) ==> reply == message)
            && (!WantsDnssec(request) ==> Plain(reply, message))
            && (reply.ad <==> message.ad && (request.ad || WantsDnssec(request)))
            && reply.cd == message.cd && reply.questions == message.questions
  {
    AsksMeans(request);
    var a := KeepPicks(message.answer);
    var n := KeepPicks(message.ns);
    var e := KeepExtra(message.extra);
    hide AsksDnssec, WantsDnssec, Keep, WithoutDo, Thinned, ThinnedExtra;
  }

  ghost predicate OneOpt(vs: seq<Value>) {
    forall i, j :: 0 <= i < j < |vs| && vs[i].Value? && vs[j].Value? && vs[i].rrtype == 41 ==> vs[j].rrtype != 41
  }

  /** Nothing of DNSSEC is left for such a client, when the message has one OPT record at most. */
  lemma PlainMeans(reply: Contents, message: Contents)
    requires Plain(reply, message) && OneOpt(message.extra)
    ensures (forall v :: v in reply.answer ==> Stays(v)) && (forall v :: v in reply.ns ==> Stays(v))
    ensures forall v :: v in reply.extra ==> Stays(v) && (v.rrtype == 41 ==> !v.wantsDo)
  {
    var e :| ThinnedExtra(e, reply.extra, message.extra);
    var same :| Thinned(e, same, message.extra, Staying()) && WithoutLastDo(reply.extra, same);
    assert OneOpt(same);
    hide OneOpt, LastOpt;
    forall i: nat | i < |reply.extra| ensures Stays(reply.extra[i]) && (reply.extra[i].rrtype == 41 ==> !reply.extra[i].wantsDo) {
      OnlyOpt(same, i);
    }
  }

  lemma OnlyOpt(vs: seq<Value>, i: nat)
    requires OneOpt(vs) && i < |vs|
    ensures vs[i].Value? && vs[i].rrtype == 41 ==> LastOpt(vs, i)
  {
  }

  /**
   * Upstream is always asked for DNSSEC, in a message large enough to carry it,
   * and otherwise asked the same: only the last OPT record is changed, or one added.
   */
  lemma UpstreamAsks(request: Contents)
    ensures var up := Upstream(request);
            && WantsDnssec(up) && up.ad && !up.cd
            && up.questions == request.questions && up.answer == request.answer && up.ns == request.ns
            && (forall i: nat :: LastOpt(request.extra, i) ==>
                  up.extra == request.extra[i := request.extra[i].(wantsDo := true, udp := if request.extra[i].udp < 1232 then 1232 else request.extra[i].udp)])
            && ((forall i: nat :: !LastOpt(request.extra, i)) ==> up.extra == request.extra + [Value(41, 0, true, 1232)])
  {
    OptIsLast(request.extra);
    var extra := WithDo(request.extra);
    var at := OptAt(request.extra);
    var i := if at.Some? then at.value else |request.extra|;
    assert LastOpt(extra, i) && extra[i].wantsDo;
  }
}
