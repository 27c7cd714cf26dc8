/** TCP connection state machine (kernel/net/tcp.c), sections 3.4 and 3.5 of RFC 793.
 *
 *  Two endpoints joined by two lossless in-order channels. Sequence numbers are 32-bit.
 */
module TcpSpec {

  const MOD: nat := 0x1_0000_0000

  type Word = x: int | 0 <= x < MOD

  datatype State =
    | Closed | Listen | SynSent | SynReceived | Established
    | FinWait1 | FinWait2 | CloseWait | Closing | LastAck | TimeWait

  datatype Tcb = Tcb(inUse: bool, state: State, sndUna: nat, sndNxt: nat, rcvNxt: nat)

  datatype Segment = Segment(seqNo: nat, ackNo: nat, syn: bool, ack: bool, fin: bool, len: nat)

  /** Sequence numbers a segment takes up. */
  function Size(g: Segment): nat {
    (if g.syn then 1 else 0) + g.len + (if g.fin then 1 else 0)
  }

  // ---- One endpoint ---------------------------------------------------------------

  /** `tcp_send_segment`. */
  function Send(t: Tcb, syn: bool, ack: bool, fin: bool, len: nat): (r: (Tcb, Segment)) {
    var g := Segment(t.sndNxt, t.rcvNxt, syn, ack, fin, len);
    (t.(sndNxt := (t.sndNxt + Size(g)) % MOD), g)
  }

  function SendAck(t: Tcb): (r: (Tcb, Segment)) {
    Send(t, false, true, false, 0)
  }

  /** `tcp_connect` with initial sequence number `iss`. */
  function Connect(iss: nat): (r: (Tcb, Segment)) {
    Send(Tcb(true, SynSent, iss, iss, 0), true, false, false, 0)
  }

  /** `tcp_close`. */
  function Close(t: Tcb): (r: (Tcb, seq<Segment>)) {
    match t.state
    case Established => var (u, g) := Send(t.(state := FinWait1), false, true, true, 0); (u, [g])
    case CloseWait => var (u, g) := Send(t.(state := LastAck), false, true, true, 0); (u, [g])
    case SynSent => (t.(state := Closed), [])
    case SynReceived => (t.(state := Closed), [])
    case Listen => (t.(state := Closed), [])
    case _ => (t, [])
  }

  /** `tcp_state_machine`: one inbound segment; `iss` is what the generator would give. */
  function Receive(t: Tcb, g: Segment, iss: nat): (r: (Tcb, seq<Segment>)) {
    match t.state
    case Listen =>
      if g.syn then
        var (u, s) := Send(t.(state := SynReceived, sndUna := iss, sndNxt := iss, rcvNxt := (g.seqNo + 1) % MOD),
                           true, true, false, 0);
        (u, [s])
      else (t, [])
    case SynSent =>
      if g.syn && g.ack then
        var (u, s) := SendAck(t.(state := Established, sndUna := g.ackNo, rcvNxt := (g.seqNo + 1) % MOD));
        (u, [s])
      else if g.syn then
        var (u, s) := Send(t.(state := SynReceived, rcvNxt := (g.seqNo + 1) % MOD), true, true, false, 0);
        (u, [s])
      else (t, [])
    case SynReceived =>
      if g.ack then (t.(state := Established, sndUna := g.ackNo), []) else (t, [])
    case Established =>
      var (u, first) :=
        if g.len > 0 then var (v, s) := SendAck(t.(rcvNxt := (g.seqNo + g.len) % MOD)); (v, [s]) else (t, []);
      if g.fin then
        var (v, s) := SendAck(u.(state := CloseWait, rcvNxt := (g.seqNo + g.len + 1) % MOD));
        (v, first + [s])
      else (u, first)
    case FinWait1 =>
      var u := if g.ack then t.(state := FinWait2) else t;
      if g.fin then
        var (v, s) := SendAck(u.(rcvNxt := (g.seqNo + 1) % MOD,
                                 state := if u.state == FinWait2 then TimeWait else Closing));
        (v, [s])
      else (u, [])
    case FinWait2 =>
      if g.fin then
        var (v, s) := SendAck(t.(rcvNxt := (g.seqNo + 1) % MOD, state := TimeWait));
        (v, [s])
      else (t, [])
    case Closing => if g.ack then (t.(state := TimeWait), []) else (t, [])
    case LastAck => if g.ack then (t.(state := Closed, inUse := false), []) else (t, [])
    case _ => (t, [])
  }

  // ---- Two endpoints and two channels ---------------------------------------------

  datatype Conn = Conn(a: Tcb, b: Tcb, ab: seq<Segment>, ba: seq<Segment>)

  datatype Op =
    | CloseA | CloseB
    | DataA(len: nat) | DataB(len: nat)
    | DeliverToA(iss: Word) | DeliverToB(iss: Word)

  /** The active opener has sent its SYN, the passive one listens. */
  function Opened(iss: Word, sndNxt: Word, rcvNxt: Word): (c: Conn) {
    var (a, syn) := Connect(iss);
    Conn(a, Tcb(true, Listen, 0, sndNxt, rcvNxt), [syn], [])
  }

  predicate MaySend(t: Tcb) {
    t.state == Established || t.state == CloseWait
  }

  function SendData(t: Tcb, len: nat): (r: (Tcb, seq<Segment>)) {
    if MaySend(t) then var (u, g) := Send(t, false, true, false, len); (u, [g]) else (t, [])
  }

  function Step(c: Conn, op: Op): (r: Conn) {
    match op
    case CloseA => var (t, out) := Close(c.a); c.(a := t, ab := c.ab + out)
    case CloseB => var (t, out) := Close(c.b); c.(b := t, ba := c.ba + out)
    case DataA(n) => var (t, out) := SendData(c.a, n); c.(a := t, ab := c.ab + out)
    case DataB(n) => var (t, out) := SendData(c.b, n); c.(b := t, ba := c.ba + out)
    case DeliverToA(iss) =>
      if c.ba == [] then c
      else var (t, out) := Receive(c.a, c.ba[0], iss); c.(a := t, ba := c.ba[1..], ab := c.ab + out)
    case DeliverToB(iss) =>
      if c.ab == [] then c
      else var (t, out) := Receive(c.b, c.ab[0], iss); c.(b := t, ab := c.ab[1..], ba := c.ba + out)
  }

  // ---- The invariant of one direction ---------------------------------------------

  /** The segments form a contiguous run of sequence numbers from `from` to `to`. */
  predicate Chain(from: nat, ch: seq<Segment>, to: nat)
    decreases |ch|
  {
    if ch == [] then from == to
    else ch[0].seqNo == from && Chain((from + Size(ch[0])) % MOD, ch[1..], to)
  }

  predicate Pure(g: Segment) {
    g.ack && !g.syn && !g.fin && g.len == 0
  }

  /** Data and acknowledgements; a FIN carries no data. */
  predicate Plain(g: Segment) {
    g.ack && !g.syn && (g.fin ==> g.len == 0)
  }

  /** Has this endpoint sent its FIN? */
  predicate FinSent(t: Tcb) {
    || t.state in {FinWait1, FinWait2, Closing, LastAck, TimeWait}
    || (t.state == Closed && !t.inUse)
  }

  /** Before the FIN only plain segments without FIN; after it only the acknowledgement
   *  sent on entering TIME_WAIT. */
  predicate Stream(ch: seq<Segment>, sender: Tcb) {
    && (forall i :: 0 <= i < |ch| ==> Plain(ch[i]))
    && (forall i :: 0 <= i < |ch| && ch[i].fin ==>
          || i == |ch| - 1
          || (i == |ch| - 2 && Pure(ch[|ch| - 1]) && sender.state == TimeWait))
    && (FinSent(sender) <==> exists i :: 0 <= i < |ch| && ch[i].fin)
  }

  /** What holds of the channel from `x` to `y`, by the receiver's state. */
  ghost predicate Dir(x: Tcb, y: Tcb, ch: seq<Segment>) {
    match y.state
    case Listen =>
      && |ch| == 1 && ch[0].syn && !ch[0].ack && x.sndNxt == (ch[0].seqNo + 1) % MOD
      && (x.state == SynSent || (x.state == Closed && x.inUse))
    case SynSent =>
      || (ch == [] && (x.state == Listen || (x.state == Closed && x.inUse)))
      || (|ch| == 1 && ch[0].syn && ch[0].ack && x.sndNxt == (ch[0].seqNo + 1) % MOD
          && (x.state == SynReceived || (x.state == Closed && x.inUse)))
    case SynReceived =>
      && Chain(y.rcvNxt, ch, x.sndNxt) && Stream(ch, x) && x.state != SynReceived && x.state != Listen
      && (if x.state == SynSent || (x.state == Closed && x.inUse) then ch == [] else ch != [] && Pure(ch[0]))
    case Established => Chain(y.rcvNxt, ch, x.sndNxt) && Stream(ch, x)
    case FinWait1 => Stream(ch, x) && (ch != [] ==> Chain(ch[0].seqNo, ch, x.sndNxt))
    case FinWait2 => Stream(ch, x) && (ch != [] ==> Chain(ch[0].seqNo, ch, x.sndNxt))
    case CloseWait => ch == [] && y.rcvNxt == x.sndNxt && (x.state == FinWait1 || x.state == FinWait2)
    case LastAck =>
      && y.rcvNxt == x.sndNxt
      && (|| (ch == [] && (x.state == FinWait1 || x.state == FinWait2))
          || (|ch| == 1 && Pure(ch[0]) && x.state == TimeWait && x.rcvNxt == y.sndNxt))
    case TimeWait =>
      && y.rcvNxt == x.sndNxt && FinSent(x)
      && forall i :: 0 <= i < |ch| ==> Pure(ch[i])
    case Closing => false
    case Closed => !y.inUse ==> x.state == TimeWait && x.rcvNxt == y.sndNxt
  }

  predicate Numbers(t: Tcb) {
    t.sndNxt < MOD && t.rcvNxt < MOD
  }

  /** Both directions between `x` and `y`. */
  ghost predicate Pair(x: Tcb, y: Tcb, xy: seq<Segment>, yx: seq<Segment>) {
    Dir(x, y, xy) && Dir(y, x, yx) && Numbers(x) && Numbers(y)
  }

  /** A TCB is released only when closed, and a listener has sent nothing. */
  predicate Live(x: Tcb, xy: seq<Segment>) {
    (x.state == Closed || x.inUse) && (x.state == Listen ==> xy == [])
  }

  ghost predicate Inv(c: Conn) {
    Pair(c.a, c.b, c.ab, c.ba) && Live(c.a, c.ab) && Live(c.b, c.ba)
  }

  // ---- Appending and consuming ----------------------------------------------------

  lemma {:induction false} ChainAppend(from: nat, ch: seq<Segment>, to: nat, g: Segment)
    requires Chain(from, ch, to) && g.seqNo == to
    ensures Chain(from, ch + [g], (to + Size(g)) % MOD)
    decreases |ch|
  {
    if ch == [] {
      assert ([] + [g])[1..] == [];
    } else {
      assert (ch + [g])[1..] == ch[1..] + [g];
      ChainAppend((from + Size(ch[0])) % MOD, ch[1..], to, g);
    }
  }

  lemma {:induction false} ChainEmptySize(from: nat, ch: seq<Segment>, to: nat)
    requires Chain(from, ch, to) && from < MOD && forall i :: 0 <= i < |ch| ==> Size(ch[i]) == 0
    ensures from == to
    decreases |ch|
  {
    if ch != [] {
      ChainEmptySize((from + Size(ch[0])) % MOD, ch[1..], to);
    }
  }

  /** A sender that has not sent its FIN appends a segment without FIN. */
  lemma {:induction false} StreamPlain(ch: seq<Segment>, x: Tcb, x': Tcb, g: Segment)
    requires Stream(ch, x) && !FinSent(x) && !FinSent(x') && Plain(g) && !g.fin
    ensures Stream(ch + [g], x')
  {
    forall i | 0 <= i < |ch| ensures !ch[i].fin {}
    var c := ch + [g];
    forall i | 0 <= i < |c| ensures Plain(c[i]) && !c[i].fin {}
  }

  lemma {:induction false} StreamFin(ch: seq<Segment>, x: Tcb, x': Tcb, g: Segment)
    requires Stream(ch, x) && !FinSent(x) && FinSent(x') && Plain(g) && g.fin
    ensures Stream(ch + [g], x')
  {
    forall i | 0 <= i < |ch| ensures !ch[i].fin {}
    var c := ch + [g];
    assert c[|c| - 1] == g;
    forall i | 0 <= i < |c| - 1 ensures c[i] == ch[i] && Plain(c[i]) && !c[i].fin {}
  }

  /** The acknowledgement of the peer's FIN follows our own FIN. */
  lemma {:induction false} StreamLast(ch: seq<Segment>, x: Tcb, x': Tcb, g: Segment)
    requires Stream(ch, x) && FinSent(x) && x.state != TimeWait && x'.state == TimeWait && Pure(g)
    ensures Stream(ch + [g], x')
  {
    var c := ch + [g];
    var k :| 0 <= k < |ch| && ch[k].fin;
    assert c[k].fin && c[|c| - 1] == g;
    forall i | 0 <= i < |ch| ensures c[i] == ch[i] {}
  }

  lemma {:induction false} StreamTail(ch: seq<Segment>, x: Tcb)
    requires Stream(ch, x) && ch != []
    ensures !ch[0].fin ==> Stream(ch[1..], x)
    ensures ch[0].fin ==> FinSent(x) && forall i :: 0 <= i < |ch| - 1 ==> Pure(ch[1..][i])
    ensures ch[0].fin && x.state != TimeWait ==> ch[1..] == []
  {
    var t := ch[1..];
    forall i | 0 <= i < |t| ensures t[i] == ch[i + 1] {}
    if !ch[0].fin && FinSent(x) {
      var k :| 0 <= k < |ch| && ch[k].fin;
      assert t[k - 1].fin;
    }
  }

  /** Only the state matters to the stream, and only through these two questions. */
  lemma {:induction false} StreamSame(ch: seq<Segment>, x: Tcb, x': Tcb)
    requires Stream(ch, x) && (FinSent(x) <==> FinSent(x')) && (x.state == TimeWait ==> x'.state == TimeWait)
    ensures Stream(ch, x')
  {
  }

  // ---- What an endpoint does keeps both directions --------------------------------

  /** An endpoint that may send appends a plain segment to its channel. */
  lemma {:induction false} AppendKeeps(x: Tcb, t: Tcb, y: Tcb, xy: seq<Segment>, g: Segment)
    requires Dir(x, y, xy) && MaySend(x) && Plain(g) && (g.fin <==> FinSent(t)) && t.inUse
    requires g.seqNo == x.sndNxt && t.sndNxt == (x.sndNxt + Size(g)) % MOD && x.inUse
    requires t.state in {Established, CloseWait, FinWait1, LastAck}
    ensures Dir(t, y, xy + [g])
  {
    hide Stream;
    if y.state in {SynReceived, Established, FinWait1, FinWait2} {
      if g.fin {
        StreamFin(xy, x, t, g);
      } else {
        StreamPlain(xy, x, t, g);
      }
      var from := if y.state == SynReceived || y.state == Established then y.rcvNxt
                  else if xy == [] then x.sndNxt else xy[0].seqNo;
      assert Chain(from, xy, x.sndNxt);
      ChainAppend(from, xy, x.sndNxt, g);
      assert (xy + [g])[0] == if xy == [] then g else xy[0];
    }
  }

  lemma {:induction false} CloseKeeps(x: Tcb, y: Tcb, xy: seq<Segment>, yx: seq<Segment>)
    requires Pair(x, y, xy, yx) && (x.state == Closed || x.inUse)
    ensures var (t, out) := Close(x); Pair(t, y, xy + out, yx)
  {
    hide Stream;
    var (t, out) := Close(x);
    if MaySend(x) {
      AppendKeeps(x, t, y, xy, out[0]);
    } else {
      assert xy + [] == xy;
      if x.state in {SynSent, SynReceived, Listen} && y.state in {SynReceived, Established, FinWait1, FinWait2} {
        StreamSame(xy, x, t);
      }
    }
  }

  lemma {:induction false} DataKeeps(x: Tcb, y: Tcb, xy: seq<Segment>, yx: seq<Segment>, len: nat)
    requires Pair(x, y, xy, yx) && (x.state == Closed || x.inUse)
    ensures var (t, out) := SendData(x, len); Pair(t, y, xy + out, yx)
  {
    hide Stream;
    var (t, out) := SendData(x, len);
    if MaySend(x) {
      AppendKeeps(x, t, y, xy, out[0]);
    } else {
      assert xy + [] == xy;
    }
  }

  /** Handshake: the passive side answers the SYN. */
  lemma {:induction false} ListenKeeps(x: Tcb, y: Tcb, xy: seq<Segment>, yx: seq<Segment>, iss: nat)
    requires Pair(x, y, xy, yx) && yx != [] && iss < MOD && x.inUse && x.state == Listen && xy == []
    ensures var (t, out) := Receive(x, yx[0], iss); Pair(t, y, xy + out, yx[1..])
  {
    var (t, out) := Receive(x, yx[0], iss);
    assert yx[1..] == [] && [] + out == out && out == [out[0]];
    assert Chain(t.rcvNxt, [], y.sndNxt) && Stream([], y);
  }

  /** Handshake: the active side answers the SYN+ACK. */
  lemma {:induction false} SynSentKeeps(x: Tcb, y: Tcb, xy: seq<Segment>, yx: seq<Segment>, iss: nat)
    requires Pair(x, y, xy, yx) && yx != [] && x.inUse && x.state == SynSent
    ensures var (t, out) := Receive(x, yx[0], iss); Pair(t, y, xy + out, yx[1..])
  {
    var (t, out) := Receive(x, yx[0], iss);
    var g := out[0];
    assert yx[1..] == [] && out == [g] && Pure(g);
    assert Chain(t.rcvNxt, [], y.sndNxt) && Stream([], y);
    if y.state == SynReceived {
      assert xy + out == [g];
      OneAck(y, t, g);
    }
  }

  lemma {:induction false} OneAck(y: Tcb, t: Tcb, g: Segment)
    requires Pure(g) && g.seqNo == t.sndNxt == y.rcvNxt < MOD && !FinSent(t)
    ensures Chain(y.rcvNxt, [g], t.sndNxt) && Stream([g], t)
  {
    assert [g][1..] == [];
  }

  /** Handshake: the passive side hears the acknowledgement. */
  lemma {:induction false} SynReceivedKeeps(x: Tcb, y: Tcb, xy: seq<Segment>, yx: seq<Segment>, iss: nat)
    requires Pair(x, y, xy, yx) && yx != [] && x.inUse && x.state == SynReceived
    ensures var (t, out) := Receive(x, yx[0], iss); Pair(t, y, xy + out, yx[1..])
  {
    hide Stream;
    var (t, out) := Receive(x, yx[0], iss);
    assert xy + [] == xy;
    StreamTail(yx, y);
    if y.state in {SynReceived, Established, FinWait1, FinWait2} {
      StreamSame(xy, x, t);
    }
  }

  /** A segment arrives at an established endpoint: in order, so the receive point moves
   *  exactly past it, and a FIN leaves nothing behind it. */
  lemma {:induction false} EstablishedKeeps(x: Tcb, y: Tcb, xy: seq<Segment>, yx: seq<Segment>, iss: nat)
    requires Pair(x, y, xy, yx) && yx != [] && x.inUse && x.state == Established
    ensures var (t, out) := Receive(x, yx[0], iss); Pair(t, y, xy + out, yx[1..])
  {
    hide Stream;
    var g := yx[0];
    PlainHead(yx, y);
    if g.len > 0 {
      DataArrives(x, y, xy, yx, iss);
    } else if g.fin {
      FinArrives(x, y, xy, yx, iss);
    } else {
      StreamTail(yx, y);
      assert xy + [] == xy;
    }
  }

  lemma {:induction false} DataArrives(x: Tcb, y: Tcb, xy: seq<Segment>, yx: seq<Segment>, iss: nat)
    requires Pair(x, y, xy, yx) && yx != [] && x.inUse && x.state == Established && yx[0].len > 0 && Plain(yx[0])
    ensures var (t, out) := Receive(x, yx[0], iss); Pair(t, y, xy + out, yx[1..])
  {
    hide Stream;
    var g := yx[0];
    StreamTail(yx, y);
    var (t, out) := Receive(x, g, iss);
    var u := x.(rcvNxt := (g.seqNo + g.len) % MOD);
    RcvIrrelevant(x, u, y, xy);
    assert !g.fin && t == SendAck(u).0 && out == [SendAck(u).1];
    AppendKeeps(u, t, y, xy, out[0]);
    assert Chain(t.rcvNxt, yx[1..], y.sndNxt);
  }

  lemma {:induction false} FinArrives(x: Tcb, y: Tcb, xy: seq<Segment>, yx: seq<Segment>, iss: nat)
    requires Pair(x, y, xy, yx) && yx != [] && x.inUse && x.state == Established && yx[0].fin && Plain(yx[0])
    ensures var (t, out) := Receive(x, yx[0], iss); Pair(t, y, xy + out, yx[1..])
  {
    hide Stream;
    var g := yx[0];
    StreamTail(yx, y);
    var (t, out) := Receive(x, g, iss);
    assert y.state == FinWait1 || y.state == FinWait2;
    var u := x.(rcvNxt := (g.seqNo + 1) % MOD);
    RcvIrrelevant(x, u, y, xy);
    assert t == SendAck(u.(state := CloseWait)).0 && out == [] + [SendAck(u.(state := CloseWait)).1];
    assert out == [out[0]];
    AppendKeeps(u, t, y, xy, out[0]);
    assert Chain((g.seqNo + Size(g)) % MOD, yx[1..], y.sndNxt);
    assert Dir(y, t, yx[1..]);
  }

  lemma {:induction false} PlainHead(ch: seq<Segment>, x: Tcb)
    requires Stream(ch, x) && ch != []
    ensures Plain(ch[0])
  {
  }

  /** The sender's receive point matters only once it is in TIME_WAIT. */
  lemma {:induction false} RcvIrrelevant(x: Tcb, u: Tcb, y: Tcb, xy: seq<Segment>)
    requires Dir(x, y, xy) && x.state != TimeWait && u == x.(rcvNxt := u.rcvNxt)
    ensures Dir(u, y, xy)
  {
    hide Chain;
    if y.state in {SynReceived, Established, FinWait1, FinWait2} {
      StreamSame(xy, x, u);
    }
  }

  /** A segment arrives after our FIN: data is skipped, the peer's FIN is answered. */
  lemma {:induction false} FinWaitKeeps(x: Tcb, y: Tcb, xy: seq<Segment>, yx: seq<Segment>, iss: nat)
    requires Pair(x, y, xy, yx) && yx != [] && x.inUse && (x.state == FinWait1 || x.state == FinWait2)
    ensures var (t, out) := Receive(x, yx[0], iss); Pair(t, y, xy + out, yx[1..])
  {
    hide Stream;
    var g := yx[0];
    StreamTail(yx, y);
    PlainHead(yx, y);
    var (t, out) := Receive(x, g, iss);
    if g.fin {
      assert Chain((g.seqNo + 1) % MOD, yx[1..], y.sndNxt);
      ChainEmptySize((g.seqNo + 1) % MOD, yx[1..], y.sndNxt);
      LastAckSent(x, t, y, xy, out[0]);
      assert out == [out[0]];
    } else {
      assert xy + [] == xy;
      if y.state in {SynReceived, Established, FinWait1, FinWait2} {
        StreamSame(xy, x, t);
      }
      assert Chain((g.seqNo + Size(g)) % MOD, yx[1..], y.sndNxt);
    }
  }

  /** Entering TIME_WAIT acknowledges the peer's FIN. */
  lemma {:induction false} LastAckSent(x: Tcb, t: Tcb, y: Tcb, xy: seq<Segment>, g: Segment)
    requires Dir(x, y, xy) && (x.state == FinWait1 || x.state == FinWait2) && t.state == TimeWait && FinSent(y)
    requires Pure(g) && g.seqNo == x.sndNxt && t.sndNxt == x.sndNxt < MOD && t.rcvNxt == y.sndNxt
    ensures Dir(t, y, xy + [g])
  {
    hide Stream;
    assert ([] + [g])[0] == g && |xy + [g]| == |xy| + 1;
    if y.state in {SynReceived, Established, FinWait1, FinWait2} {
      StreamLast(xy, x, t, g);
      var from := if y.state == SynReceived || y.state == Established then y.rcvNxt
                  else if xy == [] then x.sndNxt else xy[0].seqNo;
      assert Chain(from, xy, x.sndNxt);
      ChainAppend(from, xy, x.sndNxt, g);
      assert (xy + [g])[0] == if xy == [] then g else xy[0];
    }
  }

  /** The closing states: only an acknowledgement to LAST_ACK still changes anything. */
  lemma {:induction false} LastKeeps(x: Tcb, y: Tcb, xy: seq<Segment>, yx: seq<Segment>, iss: nat)
    requires Pair(x, y, xy, yx) && yx != [] && x.state in {LastAck, TimeWait, Closed}
    ensures var (t, out) := Receive(x, yx[0], iss); Pair(t, y, xy + out, yx[1..])
  {
    hide Stream;
    hide Chain;
    assert xy + [] == xy;
    if x.state == TimeWait {
      forall i | 0 <= i < |yx[1..]| ensures Pure(yx[1..][i]) {
        assert yx[1..][i] == yx[i + 1];
      }
    }
  }

  lemma {:induction false} ReceiveKeeps(x: Tcb, y: Tcb, xy: seq<Segment>, yx: seq<Segment>, iss: nat)
    requires Pair(x, y, xy, yx) && yx != [] && Live(x, xy) && iss < MOD
    ensures var (t, out) := Receive(x, yx[0], iss); Pair(t, y, xy + out, yx[1..]) && Live(t, xy + out)
  {
    match x.state
    case Listen => ListenKeeps(x, y, xy, yx, iss);
    case SynSent => SynSentKeeps(x, y, xy, yx, iss);
    case SynReceived => SynReceivedKeeps(x, y, xy, yx, iss);
    case Established => EstablishedKeeps(x, y, xy, yx, iss);
    case FinWait1 => FinWaitKeeps(x, y, xy, yx, iss);
    case FinWait2 => FinWaitKeeps(x, y, xy, yx, iss);
    case LastAck => LastKeeps(x, y, xy, yx, iss);
    case TimeWait => LastKeeps(x, y, xy, yx, iss);
    case Closed => LastKeeps(x, y, xy, yx, iss);
    case CloseWait =>
    case Closing =>
  }

  /** An ESTABLISHED endpoint accepts exactly the next segment of the sequence: the one that
   *  arrives starts at rcv_nxt, and rcv_nxt moves past it. */
  lemma {:induction false} InOrder(x: Tcb, y: Tcb, xy: seq<Segment>, yx: seq<Segment>, iss: nat)
    requires Pair(x, y, xy, yx) && yx != [] && x.state == Established
    ensures yx[0].seqNo == x.rcvNxt && Receive(x, yx[0], iss).0.rcvNxt == (x.rcvNxt + Size(yx[0])) % MOD
  {
    hide Stream;
    PlainHead(yx, y);
  }

  // ---- Whole runs -----------------------------------------------------------------

  lemma {:induction false} OpenedInv(iss: Word, sndNxt: Word, rcvNxt: Word)
    ensures Inv(Opened(iss, sndNxt, rcvNxt))
  {
  }

  lemma {:induction false} StepInv(c: Conn, op: Op)
    requires Inv(c)
    ensures Inv(Step(c, op))
  {
    hide Dir;
    match op
    case CloseA => CloseKeeps(c.a, c.b, c.ab, c.ba);
    case CloseB => CloseKeeps(c.b, c.a, c.ba, c.ab);
    case DataA(n) => DataKeeps(c.a, c.b, c.ab, c.ba, n);
    case DataB(n) => DataKeeps(c.b, c.a, c.ba, c.ab, n);
    case DeliverToA(iss) => if c.ba != [] { ReceiveKeeps(c.a, c.b, c.ab, c.ba, iss); }
    case DeliverToB(iss) => if c.ab != [] { ReceiveKeeps(c.b, c.a, c.ba, c.ab, iss); }
  }

  function Run(c: Conn, ops: seq<Op>): (r: Conn)
    decreases |ops|
  {
    if ops == [] then c else Run(Step(c, ops[0]), ops[1..])
  }

  lemma {:induction false} RunInv(c: Conn, ops: seq<Op>)
    requires Inv(c)
    ensures Inv(Run(c, ops))
    decreases |ops|
  {
    hide Inv;
    hide Step;
    if ops != [] {
      StepInv(c, ops[0]);
      RunInv(Step(c, ops[0]), ops[1..]);
    }
  }

  /** In every reachable state the segments in flight to an ESTABLISHED endpoint form a
   *  contiguous run of sequence numbers from its rcv_nxt to the peer's snd_nxt, in both
   *  directions. */
  lemma {:induction false} InFlightIsChain(iss: Word, sndNxt: Word, rcvNxt: Word, ops: seq<Op>)
    ensures var c := Run(Opened(iss, sndNxt, rcvNxt), ops);
      && (c.b.state == Established ==> Chain(c.b.rcvNxt, c.ab, c.a.sndNxt))
      && (c.a.state == Established ==> Chain(c.a.rcvNxt, c.ba, c.b.sndNxt))
  {
    OpenedInv(iss, sndNxt, rcvNxt);
    RunInv(Opened(iss, sndNxt, rcvNxt), ops);
  }

  /** LAST_ACK turns into CLOSED only with the peer in TIME_WAIT and everything the closer
   *  ever sent received, in every run and on either side. */
  lemma {:induction false} ClosedOnlyAfterTimeWait(iss: Word, sndNxt: Word, rcvNxt: Word, ops: seq<Op>, op: Op)
    ensures var c := Run(Opened(iss, sndNxt, rcvNxt), ops);
      var d := Step(c, op);
      && (c.a.state == LastAck && d.a.state == Closed ==> d.b.state == TimeWait && d.b.rcvNxt == d.a.sndNxt)
      && (c.b.state == LastAck && d.b.state == Closed ==> d.a.state == TimeWait && d.a.rcvNxt == d.b.sndNxt)
  {
    hide Chain;
    hide Stream;
    OpenedInv(iss, sndNxt, rcvNxt);
    RunInv(Opened(iss, sndNxt, rcvNxt), ops);
    StepInv(Run(Opened(iss, sndNxt, rcvNxt), ops), op);
  }

  /** CLOSING is never entered: every FIN the peer sends carries an ACK. */
  lemma {:induction false} NeverClosing(iss: Word, sndNxt: Word, rcvNxt: Word, ops: seq<Op>)
    ensures var c := Run(Opened(iss, sndNxt, rcvNxt), ops); c.a.state != Closing && c.b.state != Closing
  {
    hide Chain;
    hide Stream;
    OpenedInv(iss, sndNxt, rcvNxt);
    RunInv(Opened(iss, sndNxt, rcvNxt), ops);
  }

  /** The state after an arrival, by the flags of the segment: the diagram of section 3.2 of
   *  RFC 793. */
  function Arrow(s: State, syn: bool, ack: bool, fin: bool): (r: State) {
    match (s, syn, ack, fin)
    case (Listen, true, _, _) => SynReceived
    case (SynSent, true, true, _) => Established
    case (SynSent, true, false, _) => SynReceived
    case (SynReceived, _, true, _) => Established
    case (Established, _, _, true) => CloseWait
    case (FinWait1, _, true, true) => TimeWait
    case (FinWait1, _, true, false) => FinWait2
    case (FinWait1, _, false, true) => Closing
    case (FinWait2, _, _, true) => TimeWait
    case (Closing, _, true, _) => TimeWait
    case (LastAck, _, true, _) => Closed
    case _ => s
  }

  /** Every arrival and every close follows the diagram: a close announces the end exactly where
   *  data could still be sent, and gives up a connection that is not yet open. */
  lemma {:induction false} FollowsDiagram(t: Tcb, g: Segment, iss: nat)
    ensures Receive(t, g, iss).0.state == Arrow(t.state, g.syn, g.ack, g.fin)
    ensures Close(t).0.state ==
      if t.state == Established then FinWait1
      else if t.state == CloseWait then LastAck
      else if t.state in {Listen, SynSent, SynReceived} then Closed
      else t.state
    ensures |Close(t).1| == (if MaySend(t) then 1 else 0) && forall s :: s in Close(t).1 ==> s.fin && s.ack
  {
    var (_, fin) := Close(t);
    assert fin == [] || fin == [fin[0]];
  }

  /** In every run, once both ends have sent their FIN and nothing is in flight, both have ended:
   *  one is in TIME_WAIT, the other too or released. */
  lemma {:induction false} BothEnd(iss: Word, sndNxt: Word, rcvNxt: Word, ops: seq<Op>)
    ensures var c := Run(Opened(iss, sndNxt, rcvNxt), ops);
      c.ab == [] && c.ba == [] && FinSent(c.a) && FinSent(c.b) ==>
        || (c.a.state == TimeWait && (c.b.state == TimeWait || (c.b.state == Closed && !c.b.inUse)))
        || (c.b.state == TimeWait && c.a.state == Closed && !c.a.inUse)
  {
    hide Chain;
    OpenedInv(iss, sndNxt, rcvNxt);
    RunInv(Opened(iss, sndNxt, rcvNxt), ops);
  }

  predicate NotYetClosing(s: State) {
    s in {Listen, SynSent, SynReceived, Established}
  }

  lemma {:induction false} NotClosed(c: Conn, ops: seq<Op>)
    requires Inv(c) && NotYetClosing(c.a.state) && NotYetClosing(c.b.state) && NoFin(c)
    requires forall i :: 0 <= i < |ops| ==> ops[i] != CloseA && ops[i] != CloseB
    ensures var d := Run(c, ops); NotYetClosing(d.a.state) && NotYetClosing(d.b.state)
    decreases |ops|
  {
    hide Inv;
    if ops != [] {
      assert ops[0] != CloseA && ops[0] != CloseB;
      StepInv(c, ops[0]);
      FinFree(c, ops[0]);
      NotClosed(Step(c, ops[0]), ops[1..]);
    }
  }

  predicate NoFin(c: Conn) {
    (forall g :: g in c.ab ==> !g.fin) && forall g :: g in c.ba ==> !g.fin
  }

  lemma {:induction false} FinFree(c: Conn, op: Op)
    requires NotYetClosing(c.a.state) && NotYetClosing(c.b.state) && NoFin(c) && op != CloseA && op != CloseB
    ensures var d := Step(c, op); NotYetClosing(d.a.state) && NotYetClosing(d.b.state) && NoFin(d)
  {
    if op.DeliverToA? && c.ba != [] {
      assert c.ba[0] in c.ba;
    } else if op.DeliverToB? && c.ab != [] {
      assert c.ab[0] in c.ab;
    }
  }

  /** In every run without a close, as soon as nothing is in flight both ends are ESTABLISHED and
   *  agree on every sequence number. */
  lemma {:induction false} HandshakeCompletes(iss: Word, sndNxt: Word, rcvNxt: Word, ops: seq<Op>)
    requires forall i :: 0 <= i < |ops| ==> ops[i] != CloseA && ops[i] != CloseB
    ensures var c := Run(Opened(iss, sndNxt, rcvNxt), ops);
      c.ab == [] && c.ba == [] ==>
        && c.a.state == Established && c.b.state == Established
        && c.a.sndNxt == c.b.rcvNxt && c.b.sndNxt == c.a.rcvNxt
  {
    hide Stream;
    OpenedInv(iss, sndNxt, rcvNxt);
    RunInv(Opened(iss, sndNxt, rcvNxt), ops);
    NotClosed(Opened(iss, sndNxt, rcvNxt), ops);
  }

  // ---- Acknowledgement numbers --------------------------------------------------------

  /** What `x` has in flight to `y` acknowledges: the latest segment all that `x` has received,
   *  and the one that will complete `y`'s handshake all that `y` has sent. Until its own
   *  handshake is complete `x` has exactly its SYN unacknowledged. */
  ghost predicate Acks(x: Tcb, y: Tcb, xy: seq<Segment>) {
    && (xy != [] && xy[|xy| - 1].ack ==> xy[|xy| - 1].ackNo == x.rcvNxt)
    && (xy != [] && (y.state == SynSent || y.state == SynReceived) ==> xy[0].ackNo == y.sndNxt)
    && (x.state == SynSent || x.state == SynReceived ==> x.sndNxt == (x.sndUna + 1) % MOD)
  }

  ghost predicate AckInv(c: Conn) {
    Acks(c.a, c.b, c.ab) && Acks(c.b, c.a, c.ba)
  }

  lemma {:induction false} SendAcks(x: Tcb, t: Tcb, y: Tcb, xy: seq<Segment>, yx: seq<Segment>, g: Segment)
    requires Pair(x, y, xy, yx) && Acks(x, y, xy) && Acks(y, x, yx) && MaySend(x)
    requires g.ackNo == x.rcvNxt == t.rcvNxt && t.state !in {SynSent, SynReceived}
    ensures Acks(t, y, xy + [g]) && Acks(y, t, yx)
  {
    hide Stream;
    hide Chain;
    assert xy != [] ==> (xy + [g])[0] == xy[0];
  }

  lemma {:induction false} CloseAcks(x: Tcb, y: Tcb, xy: seq<Segment>, yx: seq<Segment>)
    requires Pair(x, y, xy, yx) && Acks(x, y, xy) && Acks(y, x, yx)
    ensures var (t, out) := Close(x); Acks(t, y, xy + out) && Acks(y, t, yx)
  {
    hide Pair;
    var (t, out) := Close(x);
    if MaySend(x) {
      SendAcks(x, t, y, xy, yx, out[0]);
    } else {
      assert xy + [] == xy;
    }
  }

  lemma {:induction false} DataAcks(x: Tcb, y: Tcb, xy: seq<Segment>, yx: seq<Segment>, len: nat)
    requires Pair(x, y, xy, yx) && Acks(x, y, xy) && Acks(y, x, yx)
    ensures var (t, out) := SendData(x, len); Acks(t, y, xy + out) && Acks(y, t, yx)
  {
    hide Pair;
    var (t, out) := SendData(x, len);
    if MaySend(x) {
      SendAcks(x, t, y, xy, yx, out[0]);
    } else {
      assert xy + [] == xy;
    }
  }

  /** What an arrival sends acknowledges everything received so far, and it sends something
   *  whenever that has grown. */
  lemma {:induction false} ReceiveSends(x: Tcb, g: Segment, iss: nat)
    ensures var (t, out) := Receive(x, g, iss);
      && (out != [] ==> out[|out| - 1].ack && out[|out| - 1].ackNo == t.rcvNxt)
      && (out == [] ==> t.rcvNxt == x.rcvNxt)
  {
  }

  lemma {:induction false} ReceiveAcks(x: Tcb, y: Tcb, xy: seq<Segment>, yx: seq<Segment>, iss: nat)
    requires Pair(x, y, xy, yx) && Acks(x, y, xy) && Acks(y, x, yx) && yx != [] && Live(x, xy)
    ensures var (t, out) := Receive(x, yx[0], iss); Acks(t, y, xy + out) && Acks(y, t, yx[1..])
  {
    hide Chain;
    hide Stream;
    ReceiveSends(x, yx[0], iss);
    var (t, out) := Receive(x, yx[0], iss);
    assert out == [] ==> xy + out == xy;
    assert xy != [] ==> (xy + out)[0] == xy[0];
    ReceiveHandshake(x, y, xy, yx, iss);
  }

  /** The parts of the handshake: a SYN+ACK or the ACK of one acknowledges exactly the SYN. */
  lemma {:induction false} ReceiveHandshake(x: Tcb, y: Tcb, xy: seq<Segment>, yx: seq<Segment>, iss: nat)
    requires Pair(x, y, xy, yx) && Acks(x, y, xy) && Acks(y, x, yx) && yx != [] && Live(x, xy)
    ensures var (t, out) := Receive(x, yx[0], iss);
      && (t.state == SynSent || t.state == SynReceived ==> yx[1..] == [])
      && (y.state == SynSent || y.state == SynReceived ==> xy != [] || out == [] || out[0].ackNo == y.sndNxt)
      && (t.state == Established && x.state != Established ==> t.sndUna == t.sndNxt)
  {
    hide Chain;
    if x.state == SynReceived {
      PlainHead(yx, y);
    }
  }

  lemma {:induction false} StepAcks(c: Conn, op: Op)
    requires Inv(c) && AckInv(c)
    ensures AckInv(Step(c, op))
  {
    hide Pair;
    hide Acks;
    match op
    case CloseA => CloseAcks(c.a, c.b, c.ab, c.ba);
    case CloseB => SwapPair(c); CloseAcks(c.b, c.a, c.ba, c.ab);
    case DataA(n) => DataAcks(c.a, c.b, c.ab, c.ba, n);
    case DataB(n) => SwapPair(c); DataAcks(c.b, c.a, c.ba, c.ab, n);
    case DeliverToA(iss) => if c.ba != [] { ReceiveAcks(c.a, c.b, c.ab, c.ba, iss); }
    case DeliverToB(iss) => if c.ab != [] { SwapPair(c); ReceiveAcks(c.b, c.a, c.ba, c.ab, iss); }
  }

  lemma {:induction false} SwapPair(c: Conn)
    requires Pair(c.a, c.b, c.ab, c.ba)
    ensures Pair(c.b, c.a, c.ba, c.ab)
  {
    hide Dir;
  }

  lemma {:induction false} RunAcks(c: Conn, ops: seq<Op>)
    requires Inv(c) && AckInv(c)
    ensures AckInv(Run(c, ops))
    decreases |ops|
  {
    hide Inv;
    hide AckInv;
    hide Step;
    if ops != [] {
      StepInv(c, ops[0]);
      StepAcks(c, ops[0]);
      RunAcks(Step(c, ops[0]), ops[1..]);
    }
  }

  lemma {:induction false} OpenedAcks(iss: Word, sndNxt: Word, rcvNxt: Word)
    ensures AckInv(Opened(iss, sndNxt, rcvNxt))
  {
  }

  /** In every run from one active and one passive opener the last segment in flight on either
   *  side, if it carries an acknowledgement, acknowledges all that its sender has received. */
  lemma {:induction false} LatestAckCurrent(iss: Word, sndNxt: Word, rcvNxt: Word, ops: seq<Op>)
    ensures var c := Run(Opened(iss, sndNxt, rcvNxt), ops);
      && (c.ab != [] && c.ab[|c.ab| - 1].ack ==> c.ab[|c.ab| - 1].ackNo == c.a.rcvNxt)
      && (c.ba != [] && c.ba[|c.ba| - 1].ack ==> c.ba[|c.ba| - 1].ackNo == c.b.rcvNxt)
  {
    hide Inv;
    OpenedInv(iss, sndNxt, rcvNxt);
    OpenedAcks(iss, sndNxt, rcvNxt);
    RunAcks(Opened(iss, sndNxt, rcvNxt), ops);
  }

  /** Data or a FIN that arrives in ESTABLISHED is answered with an acknowledgement of the number
   *  after its last, modulo 2^32. */
  lemma {:induction false} ArrivalAnswered(x: Tcb, y: Tcb, xy: seq<Segment>, yx: seq<Segment>, iss: nat)
    requires Pair(x, y, xy, yx) && yx != [] && x.state == Established && Size(yx[0]) > 0
    ensures var (t, out) := Receive(x, yx[0], iss);
      && out != [] && out[|out| - 1].ack
      && out[|out| - 1].ackNo == (yx[0].seqNo + Size(yx[0])) % MOD == t.rcvNxt
  {
    hide Chain;
    hide Stream;
    InOrder(x, y, xy, yx, iss);
    PlainHead(yx, y);
    ReceiveSends(x, yx[0], iss);
  }

  /** A step that completes a handshake, on either side and in every run, finds the whole of what
   *  was sent acknowledged. */
  lemma {:induction false} HandshakeAcked(iss: Word, sndNxt: Word, rcvNxt: Word, ops: seq<Op>, op: Op)
    ensures var c := Run(Opened(iss, sndNxt, rcvNxt), ops);
      var d := Step(c, op);
      && (c.a.state != Established && d.a.state == Established ==> d.a.sndUna == d.a.sndNxt)
      && (c.b.state != Established && d.b.state == Established ==> d.b.sndUna == d.b.sndNxt)
  {
    hide Pair;
    hide Receive;
    OpenedInv(iss, sndNxt, rcvNxt);
    OpenedAcks(iss, sndNxt, rcvNxt);
    RunInv(Opened(iss, sndNxt, rcvNxt), ops);
    RunAcks(Opened(iss, sndNxt, rcvNxt), ops);
    var c := Run(Opened(iss, sndNxt, rcvNxt), ops);
    SwapPair(c);
    if op.DeliverToA? && c.ba != [] {
      ReceiveHandshake(c.a, c.b, c.ab, c.ba, op.iss);
    } else if op.DeliverToB? && c.ab != [] {
      ReceiveHandshake(c.b, c.a, c.ba, c.ab, op.iss);
    }
  }

  /** Both ends call connect at once. */
  function BothConnect(i: Word, j: Word): (c: Conn) {
    var (a, synA) := Connect(i);
    var (b, synB) := Connect(j);
    Conn(a, b, [synA], [synB])
  }

  lemma {:induction false} CrossedSyns(i: Word, j: Word)
    ensures var c := Step(Step(BothConnect(i, j), DeliverToA(0)), DeliverToB(0));
      && |c.ab| == 1 && |c.ba| == 1 && c.ab[0].ack && c.ba[0].ack
      && c.a.state == SynReceived && c.b.state == SynReceived
      && c.a.sndNxt == (i + 2) % MOD && c.b.rcvNxt == (i + 1) % MOD
      && c.b.sndNxt == (j + 2) % MOD && c.a.rcvNxt == (j + 1) % MOD
  {
    var c := Step(BothConnect(i, j), DeliverToA(0));
    assert c.ba == [] && |c.ab| == 2 && c.ab[0].syn && !c.ab[0].ack && c.ab[1].ack;
    assert c.a.sndNxt == ((i + 1) % MOD + 1) % MOD == (i + 2) % MOD;
  }

  /** Two active openers: whatever their initial sequence numbers, both end ESTABLISHED with
   *  nothing in flight and each expecting one number less than the other will send next,
   *  because the SYN was counted twice. */
  lemma {:induction false} SimultaneousOpenSkips(i: Word, j: Word)
    ensures var d := Step(Step(BothConnect(i, j), DeliverToA(0)), DeliverToB(0));
      var c := Step(Step(d, DeliverToA(0)), DeliverToB(0));
      && c.a.state == Established && c.b.state == Established && c.ab == [] && c.ba == []
      && c.a.sndNxt == (i + 2) % MOD && c.b.rcvNxt == (i + 1) % MOD
      && c.b.sndNxt == (j + 2) % MOD && c.a.rcvNxt == (j + 1) % MOD
      && !Chain(c.b.rcvNxt, c.ab, c.a.sndNxt) && !Chain(c.a.rcvNxt, c.ba, c.b.sndNxt)
  {
    CrossedSyns(i, j);
    EmptyStep(Step(Step(BothConnect(i, j), DeliverToA(0)), DeliverToB(0)));
  }

  /** How each side opens: actively with an initial sequence number, or as a listener. */
  datatype Opening = Active(iss: Word) | Passive(sndNxt: Word, rcvNxt: Word)

  function OpenTcb(o: Opening): (r: (Tcb, seq<Segment>)) {
    match o
    case Active(iss) => var (t, g) := Connect(iss); (t, [g])
    case Passive(sndNxt, rcvNxt) => (Tcb(true, Listen, 0, sndNxt, rcvNxt), [])
  }

  function Start(a: Opening, b: Opening): (c: Conn) {
    var (t, ab) := OpenTcb(a);
    var (u, ba) := OpenTcb(b);
    Conn(t, u, ab, ba)
  }

  /** What is in flight to an ESTABLISHED endpoint continues where its rcv_nxt stands. */
  predicate Linked(c: Conn) {
    && (c.b.state == Established ==> Chain(c.b.rcvNxt, c.ab, c.a.sndNxt))
    && (c.a.state == Established ==> Chain(c.a.rcvNxt, c.ba, c.b.sndNxt))
  }

  /** Two listeners: nothing is ever sent. */
  predicate Quiet(c: Conn) {
    c.a.state in {Listen, Closed} && c.b.state in {Listen, Closed} && c.ab == [] && c.ba == []
  }

  lemma {:induction false} QuietRun(c: Conn, ops: seq<Op>)
    requires Quiet(c)
    ensures Quiet(Run(c, ops))
    decreases |ops|
  {
    if ops != [] {
      QuietRun(Step(c, ops[0]), ops[1..]);
    }
  }

  lemma {:induction false} OneActive(a: Opening, b: Opening)
    requires a.Active? <==> b.Passive?
    ensures Inv(Start(a, b))
  {
    if a.Active? {
      OpenedInv(a.iss, b.sndNxt, b.rcvNxt);
    } else {
      OpenedInv(b.iss, a.sndNxt, a.rcvNxt);
    }
  }

  /** In every run from any two openings the segments in flight to an ESTABLISHED endpoint
   *  continue its stream, exactly when not both sides open actively. */
  lemma {:induction false} LinkedIff(a: Opening, b: Opening)
    ensures (forall ops :: Linked(Run(Start(a, b), ops))) <==> a.Passive? || b.Passive?
  {
    hide Step;
    hide Inv;
    if a.Active? && b.Active? {
      var c := BothConnect(a.iss, b.iss);
      var ops := [DeliverToA(0), DeliverToB(0), DeliverToA(0), DeliverToB(0)];
      SimultaneousOpenSkips(a.iss, b.iss);
      FourSteps(c, ops);
      assert !Linked(Run(Start(a, b), ops));
    } else {
      forall ops ensures Linked(Run(Start(a, b), ops)) {
        if a.Passive? && b.Passive? {
          QuietRun(Start(a, b), ops);
        } else {
          OneActive(a, b);
          RunInv(Start(a, b), ops);
          InvLinked(Run(Start(a, b), ops));
        }
      }
    }
  }

  lemma {:induction false} InvLinked(c: Conn)
    requires Inv(c)
    ensures Linked(c)
  {
    hide Chain;
    hide Stream;
  }

  lemma {:induction false} FourSteps(c: Conn, ops: seq<Op>)
    requires |ops| == 4
    ensures Run(c, ops) == Step(Step(Step(Step(c, ops[0]), ops[1]), ops[2]), ops[3])
  {
    hide Step;
    assert ops[1..][1..] == ops[2..] && ops[2..][1..] == ops[3..] && ops[3..][1..] == [];
    var d := Step(Step(c, ops[0]), ops[1]);
    assert Run(c, ops) == Run(d, ops[2..]);
    var e := Step(d, ops[2]);
    assert Run(d, ops[2..]) == Run(e, ops[3..]) == Run(Step(e, ops[3]), []);
  }

  lemma {:induction false} EmptyStep(c: Conn)
    requires |c.ab| == 1 && |c.ba| == 1 && c.ab[0].ack && c.ba[0].ack
    requires c.a.state == SynReceived && c.b.state == SynReceived
    ensures var d := Step(Step(c, DeliverToA(0)), DeliverToB(0));
      && d.a == c.a.(state := Established, sndUna := d.a.sndUna)
      && d.b == c.b.(state := Established, sndUna := d.b.sndUna) && d.ab == [] && d.ba == []
  {
    var d := Step(c, DeliverToA(0));
    assert d.ab == c.ab + [] == c.ab && d.ba == [];
    assert d.ab[1..] == [] && d.ba + [] == [];
  }
}

/** The TCB as the kernel keeps it: fields rewritten in place by every call. */
module Tcp {
  import opened Arithmetic
  import opened TcpSpec

  class TcbObject {
    var inUse: bool
    var state: State
    var sndUna: nat
    var sndNxt: nat
    var rcvNxt: nat

    ghost function Abs(): (t: Tcb)
      reads this
    {
      Tcb(inUse, state, sndUna, sndNxt, rcvNxt)
    }

    /** A listening TCB. */
    constructor (sndNxt: nat, rcvNxt: nat)
      ensures Abs() == Tcb(true, Listen, 0, sndNxt, rcvNxt)
    {
      this.inUse, this.state, this.sndUna, this.sndNxt, this.rcvNxt := true, Listen, 0, sndNxt, rcvNxt;
    }

    method SendSegment(syn: bool, ack: bool, fin: bool, len: nat) returns (g: Segment)
      modifies `sndNxt
      ensures (Abs(), g) == Send(old(Abs()), syn, ack, fin, len)
      ensures g.seqNo == old(sndNxt) && g.ackNo == old(rcvNxt) && sndNxt == (old(sndNxt) + Size(g)) % MOD
    {
      g := Segment(sndNxt, rcvNxt, syn, ack, fin, len);
      ghost var start: nat := sndNxt;
      if syn {
        sndNxt := (sndNxt + 1) % MOD;
        AddMod(start + 1, len, MOD);
      }
      sndNxt := (sndNxt + len) % MOD;
      assert sndNxt == (start + (if syn then 1 else 0) + len) % MOD;
      if fin {
        AddMod(start + (if syn then 1 else 0) + len, 1, MOD);
        sndNxt := (sndNxt + 1) % MOD;
      }
    }

    /** `tcp_connect` on an allocated TCB. */
    method Open(iss: Word) returns (syn: Segment)
      requires inUse
      modifies this
      ensures (Abs(), syn) == Connect(iss)
    {
      sndUna, sndNxt, rcvNxt, state := iss, iss, 0, SynSent;
      syn := SendSegment(true, false, false, 0);
    }

    method Shut() returns (out: seq<Segment>)
      modifies this
      ensures (Abs(), out) == Close(old(Abs()))
    {
      out := [];
      match state {
        case Established =>
          state := FinWait1;
          var g := SendSegment(false, true, true, 0);
          out := [g];
        case CloseWait =>
          state := LastAck;
          var g := SendSegment(false, true, true, 0);
          out := [g];
        case SynSent => state := Closed;
        case SynReceived => state := Closed;
        case Listen => state := Closed;
        case _ =>
      }
    }

    /** One arriving segment. `iss` is the number the generator would hand out. */
    method Input(g: Segment, iss: Word) returns (out: seq<Segment>)
      modifies this
      ensures (Abs(), out) == Receive(old(Abs()), g, iss)
    {
      out := [];
      match state {
        case Listen =>
          if g.syn {
            rcvNxt, sndUna, sndNxt, state := (g.seqNo + 1) % MOD, iss, iss, SynReceived;
            var s := SendSegment(true, true, false, 0);
            out := [s];
          }
        case SynSent =>
          if g.syn && g.ack {
            rcvNxt, sndUna, state := (g.seqNo + 1) % MOD, g.ackNo, Established;
            var s := SendSegment(false, true, false, 0);
            out := [s];
          } else if g.syn {
            rcvNxt, state := (g.seqNo + 1) % MOD, SynReceived;
            var s := SendSegment(true, true, false, 0);
            out := [s];
          }
        case SynReceived =>
          if g.ack {
            sndUna, state := g.ackNo, Established;
          }
        case Established =>
          out := InputData(g);
        case FinWait1 =>
          if g.ack {
            state := FinWait2;
          }
          if g.fin {
            rcvNxt := (g.seqNo + 1) % MOD;
            state := if state == FinWait2 then TimeWait else Closing;
            var s := SendSegment(false, true, false, 0);
            out := [s];
          }
        case FinWait2 =>
          if g.fin {
            rcvNxt, state := (g.seqNo + 1) % MOD, TimeWait;
            var s := SendSegment(false, true, false, 0);
            out := [s];
          }
        case Closing =>
          if g.ack {
            state := TimeWait;
          }
        case LastAck =>
          if g.ack {
            state := Closed;
            inUse := false;
          }
        case _ =>
      }
    }

    method InputData(g: Segment) returns (out: seq<Segment>)
      requires state == Established
      modifies this
      ensures (Abs(), out) == Receive(old(Abs()), g, 0)
    {
      out := [];
      if g.len > 0 {
        rcvNxt := (g.seqNo + g.len) % MOD;
        var s := SendSegment(false, true, false, 0);
        out := [s];
      }
      if g.fin {
        rcvNxt, state := (g.seqNo + g.len + 1) % MOD, CloseWait;
        var s := SendSegment(false, true, false, 0);
        out := out + [s];
      }
    }
  }

  /** Two TCBs and what is on the way between them. */
  class Connection {
    const a: TcbObject
    const b: TcbObject
    var ab: seq<Segment>
    var ba: seq<Segment>

    ghost function Abs(): (c: Conn)
      reads this, a, b
    {
      Conn(a.Abs(), b.Abs(), ab, ba)
    }

    ghost predicate Valid()
      reads this, a, b
    {
      a != b && Inv(Abs()) && AckInv(Abs())
    }

    /** The first side connects, the second listens. */
    constructor (iss: Word, sndNxt: Word, rcvNxt: Word)
      ensures Valid() && Abs() == Opened(iss, sndNxt, rcvNxt) && fresh(a) && fresh(b)
    {
      var t := new TcbObject(0, 0);
      var u := new TcbObject(sndNxt, rcvNxt);
      var syn := t.Open(iss);
      a, b, ab, ba := t, u, [syn], [];
      new;
      OpenedInv(iss, sndNxt, rcvNxt);
      OpenedAcks(iss, sndNxt, rcvNxt);
    }

    /** `tcp_close` on one side: a side that could send has its FIN last in its channel. */
    method CloseSide(first: bool)
      requires Valid()
      modifies this, a, b
      ensures Valid() && Abs() == Step(old(Abs()), if first then CloseA else CloseB)
      ensures var (t, ch) := if first then (old(a.Abs()), ab) else (old(b.Abs()), ba);
        MaySend(t) ==> ch != [] && ch[|ch| - 1].fin && ch[|ch| - 1].seqNo == t.sndNxt
    {
      hide Inv;
      hide AckInv;
      StepInv(Abs(), if first then CloseA else CloseB);
      StepAcks(Abs(), if first then CloseA else CloseB);
      if first {
        var out := a.Shut();
        ab := ab + out;
      } else {
        var out := b.Shut();
        ba := ba + out;
      }
    }

    /** A side that may send puts `len` bytes on its channel, after all it sent before. */
    method Transmit(first: bool, len: nat)
      requires Valid()
      modifies this, a, b
      ensures Valid() && Abs() == Step(old(Abs()), if first then DataA(len) else DataB(len))
      ensures var (t, ch) := if first then (old(a.Abs()), ab) else (old(b.Abs()), ba);
        MaySend(t) ==> ch != [] && ch[|ch| - 1].len == len && ch[|ch| - 1].seqNo == t.sndNxt
    {
      hide Inv;
      hide AckInv;
      StepInv(Abs(), if first then DataA(len) else DataB(len));
      StepAcks(Abs(), if first then DataA(len) else DataB(len));
      var t := if first then a else b;
      if t.state == Established || t.state == CloseWait {
        var g := t.SendSegment(false, true, false, len);
        if first {
          ab := ab + [g];
        } else {
          ba := ba + [g];
        }
      }
    }

    /** The next segment arrives at one side. An ESTABLISHED side accepts exactly the segment at
     *  its rcv_nxt; a side leaves LAST_ACK for CLOSED only with its peer in TIME_WAIT and all
     *  it sent received. */
    method Deliver(toFirst: bool, iss: Word)
      requires Valid()
      modifies this, a, b
      ensures Valid() && Abs() == Step(old(Abs()), if toFirst then DeliverToA(iss) else DeliverToB(iss))
      ensures var (was, now, ch) :=
          if toFirst then (old(a.Abs()), a.Abs(), old(ba)) else (old(b.Abs()), b.Abs(), old(ab));
        was.state == Established && ch != [] ==>
          ch[0].seqNo == was.rcvNxt && now.rcvNxt == (was.rcvNxt + Size(ch[0])) % MOD
      ensures var (was, now, peer) :=
          if toFirst then (old(a.Abs()), a.Abs(), b.Abs()) else (old(b.Abs()), b.Abs(), a.Abs());
        was.state == LastAck && now.state == Closed ==> peer.state == TimeWait && peer.rcvNxt == now.sndNxt
      ensures var (was, arrived, out) := if toFirst then (old(a.state), old(ba), ab) else (old(b.state), old(ab), ba);
        was == Established && arrived != [] && Size(arrived[0]) > 0 ==>
          out != [] && out[|out| - 1].ackNo == (arrived[0].seqNo + Size(arrived[0])) % MOD
    {
      hide Inv;
      hide AckInv;
      hide Receive;
      ghost var c := Abs();
      StepInv(c, if toFirst then DeliverToA(iss) else DeliverToB(iss));
      StepAcks(c, if toFirst then DeliverToA(iss) else DeliverToB(iss));
      DeliverFacts(c, toFirst, iss);
      DeliverAnswers(c, toFirst, iss);
      if toFirst && ba != [] {
        var out := a.Input(ba[0], iss);
        ba := ba[1..];
        ab := ab + out;
      } else if !toFirst && ab != [] {
        var out := b.Input(ab[0], iss);
        ab := ab[1..];
        ba := ba + out;
      }
    }

    /** Any sequence of calls and arrivals. */
    method Perform(ops: seq<Op>)
      requires Valid()
      modifies this, a, b
      ensures Valid() && Abs() == Run(old(Abs()), ops)
    {
      hide Inv;
      hide AckInv;
      hide Step;
      for i := 0 to |ops|
        invariant Valid() && Run(Abs(), ops[i..]) == Run(old(Abs()), ops)
      {
        assert ops[i..][1..] == ops[i + 1..];
        match ops[i] {
          case CloseA => CloseSide(true);
          case CloseB => CloseSide(false);
          case DataA(n) => Transmit(true, n);
          case DataB(n) => Transmit(false, n);
          case DeliverToA(iss) => Deliver(true, iss);
          case DeliverToB(iss) => Deliver(false, iss);
        }
      }
    }
  }

  /** What arrives in ESTABLISHED is acknowledged. */
  lemma {:induction false} DeliverAnswers(c: Conn, toFirst: bool, iss: Word)
    requires Inv(c)
    ensures var (was, arrived) := if toFirst then (c.a.state, c.ba) else (c.b.state, c.ab);
      was == Established && arrived != [] && Size(arrived[0]) > 0 ==>
        var d := Step(c, if toFirst then DeliverToA(iss) else DeliverToB(iss));
        var out := if toFirst then d.ab else d.ba;
        out != [] && out[|out| - 1].ackNo == (arrived[0].seqNo + Size(arrived[0])) % MOD
  {
    hide Dir;
    hide Receive;
    if toFirst && c.ba != [] && c.a.state == Established && Size(c.ba[0]) > 0 {
      ArrivalAnswered(c.a, c.b, c.ab, c.ba, iss);
    } else if !toFirst && c.ab != [] && c.b.state == Established && Size(c.ab[0]) > 0 {
      ArrivalAnswered(c.b, c.a, c.ba, c.ab, iss);
    }
  }

  lemma {:induction false} DeliverFacts(c: Conn, toFirst: bool, iss: Word)
    requires Inv(c)
    ensures var d := Step(c, if toFirst then DeliverToA(iss) else DeliverToB(iss));
      var (was, now, peer, ch) := if toFirst then (c.a, d.a, d.b, c.ba) else (c.b, d.b, d.a, c.ab);
      && (was.state == Established && ch != [] ==>
            ch[0].seqNo == was.rcvNxt && now.rcvNxt == (was.rcvNxt + Size(ch[0])) % MOD)
      && (was.state == LastAck && now.state == Closed ==> peer.state == TimeWait && peer.rcvNxt == now.sndNxt)
  {
    hide Chain;
    hide Stream;
    if toFirst && c.ba != [] && c.a.state == Established {
      InOrder(c.a, c.b, c.ab, c.ba, iss);
    } else if !toFirst && c.ab != [] && c.b.state == Established {
      InOrder(c.b, c.a, c.ba, c.ab, iss);
    }
  }
}
