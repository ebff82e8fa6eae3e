/** Length-prefixed packets over a byte stream that moves in arbitrary pieces
    (luce/io/io_awaiter.cpp). */
module Packet {
  import opened Bytes

  const HEADER_SIZE: nat := 4

  /** What one ::read or ::write does next; the environment's choice. */
  datatype IoEvent = Ready(n: nat) | TryAgain | Closed | Failed

  datatype IoResult = Moved(n: nat) | Again | Eof | Error | Stalled

  datatype Status = Done | PeerClosed | IoError | Pending

  // ---------- The wire format ----------

  function Frame(payload: seq<Byte>): (bs: seq<Byte>)
    ensures |bs| == HEADER_SIZE + |payload|
  {
    LittleEndian(|payload|, HEADER_SIZE) + payload
  }

  /** The header is the length as a uint32_t, lowest byte first; the payload follows. */
  lemma FrameBytes(p: seq<Byte>)
    requires |p| < UINT32_LIMIT
    ensures var f, n := Frame(p), |p|;
      f == [n % 256, n / 0x100 % 256, n / 0x1_0000 % 256, n / 0x100_0000] + p
  {
    LittleEndianImages(|p|);
    hide LittleEndian;
    TopDigit(|p|);
  }

  function Frames(ps: seq<seq<Byte>>): seq<Byte> {
    if ps == [] then [] else Frame(ps[0]) + Frames(ps[1..])
  }

  ghost predicate Small(ps: seq<seq<Byte>>) {
    forall i :: 0 <= i < |ps| ==> |ps[i]| < UINT32_LIMIT
  }

  lemma FrameUnique(p: seq<Byte>, q: seq<Byte>, s: seq<Byte>, t: seq<Byte>)
    requires |p| < UINT32_LIMIT && |q| < UINT32_LIMIT && Frame(p) + s == Frame(q) + t
    ensures p == q && s == t
  {
    Pow256Values();
    var a, b := Frame(p) + s, Frame(q) + t;
    assert LittleEndian(|p|, 4) == a[..4] == b[..4] == LittleEndian(|q|, 4);
    LittleEndianInverse(|p|, 4);
    LittleEndianInverse(|q|, 4);
    assert p == a[4..4 + |p|] == b[4..4 + |q|] == q;
    assert s == a[4 + |p|..] == b[4 + |q|..] == t;
  }

  /** A stream of frames can be cut into payloads in one way only. */
  lemma {:induction false} FramesUnique(ps: seq<seq<Byte>>, qs: seq<seq<Byte>>, s: seq<Byte>, t: seq<Byte>)
    requires |ps| == |qs| && Small(ps) && Small(qs) && Frames(ps) + s == Frames(qs) + t
    ensures ps == qs && s == t
  {
    if ps != [] {
      var u, v := Frames(ps[1..]) + s, Frames(qs[1..]) + t;
      assert Frame(ps[0]) + u == Frames(ps) + s;
      assert Frame(qs[0]) + v == Frames(qs) + t;
      FrameUnique(ps[0], qs[0], u, v);
      FramesUnique(ps[1..], qs[1..], s, t);
      assert ps == [ps[0]] + ps[1..] && qs == [qs[0]] + qs[1..];
    } else {
      assert [] + s == s && [] + t == t;
    }
  }

  lemma {:induction false} FramesAppend(ps: seq<seq<Byte>>, p: seq<Byte>)
    ensures Frames(ps + [p]) == Frames(ps) + Frame(p)
  {
    if ps == [] {
      assert [p][1..] == [];
    } else {
      FramesAppend(ps[1..], p);
      assert (ps + [p])[1..] == ps[1..] + [p];
    }
  }

  lemma FramesNone()
    ensures Frames([]) == [] && Small([])
  {
  }

  lemma FramesFrom(ps: seq<seq<Byte>>, k: nat)
    requires k < |ps| && Small(ps)
    ensures |ps[k]| < UINT32_LIMIT && Frames(ps[k..]) == Frame(ps[k]) + Frames(ps[k + 1..])
  {
    assert ps[k..][1..] == ps[k + 1..];
  }

  lemma FramesExtend(ps: seq<seq<Byte>>, p: seq<Byte>, rest: seq<Byte>)
    ensures Frames(ps) + (Frame(p) + rest) == Frames(ps + [p]) + rest
    ensures Small(ps) && |p| < UINT32_LIMIT ==> Small(ps + [p])
  {
    FramesAppend(ps, p);
  }

  // ---------- What the kernel has in store ----------

  // The next outcome, and the outcomes after it; no outcome left means never resumed again.
  function First(script: seq<IoEvent>): (r: IoResult)
    ensures r.Moved? ==> r.n > 0
    ensures r.Stalled? <==> script == []
  {
    if script == [] then Stalled else
    match script[0]
    case Ready(n) => Moved(if n == 0 then 1 else n)
    case TryAgain => Again
    case Closed => Eof
    case Failed => Error
  }

  function Tail(script: seq<IoEvent>): seq<IoEvent> { if script == [] then [] else script[1..] }

  // The next k header transfers move the whole header.
  ghost predicate MoveWhole(heads: seq<IoEvent>, k: nat) {
    k <= |heads| && forall i :: 0 <= i < k ==> heads[i].Ready? && heads[i].n >= HEADER_SIZE
  }

  lemma MoveWholeTail(heads: seq<IoEvent>, k: nat)
    requires k > 0 && MoveWhole(heads, k)
    ensures First(heads).Moved? && First(heads).n >= HEADER_SIZE
    ensures MoveWhole(heads, 1) && MoveWhole(Tail(heads), k - 1)
  {
    assert heads[0].Ready?;
    forall i | 0 <= i < k - 1 ensures Tail(heads)[i].Ready? && Tail(heads)[i].n >= HEADER_SIZE {
      assert Tail(heads)[i] == heads[i + 1];
    }
  }

  /** How a loop that must move n bytes ends, and what it leaves of the schedule. */
  datatype Flow = Flow(status: Status, rest: seq<IoEvent>)

  function Transfer(script: seq<IoEvent>, n: nat): Flow
    decreases |script|
  {
    if n == 0 then Flow(Done, script) else
    match First(script)
    case Moved(k) => if k >= n then Flow(Done, Tail(script)) else Transfer(Tail(script), n - k)
    case Again => Transfer(Tail(script), n)
    case Eof => Flow(PeerClosed, Tail(script))
    case Error => Flow(IoError, Tail(script))
    case Stalled => Flow(Pending, script)
  }

  /** The same for several loops one after the other, up to the first that is not done. */
  function Carry(script: seq<IoEvent>, sizes: seq<nat>): Flow
    decreases |sizes|
  {
    if sizes == [] then Flow(Done, script) else
    var f := Transfer(script, sizes[0]);
    if f.status.Done? then Carry(f.rest, sizes[1..]) else f
  }

  function Sizes(ps: seq<seq<Byte>>): (r: seq<nat>)
    ensures |r| == |ps|
  {
    seq(|ps|, i requires 0 <= i < |ps| => |ps[i]|)
  }

  function Total(sizes: seq<nat>): nat { if sizes == [] then 0 else sizes[0] + Total(sizes[1..]) }

  // How many outcomes of a schedule move something.
  function Readies(script: seq<IoEvent>): nat {
    if script == [] then 0 else (if script[0].Ready? then 1 else 0) + Readies(script[1..])
  }

  ghost predicate Open(script: seq<IoEvent>) { Closed !in script && Failed !in script }

  // A transfer that is not done was cut short by the peer, by an error, or for good.
  ghost predicate Explained(f: Flow, before: seq<IoEvent>) {
    match f.status
    case Done => true
    case PeerClosed => Closed in before
    case IoError => Failed in before
    case Pending => f.rest == []
  }

  lemma {:induction false} TransferExplained(script: seq<IoEvent>, n: nat)
    ensures Explained(Transfer(script, n), script)
    ensures forall e :: e in Transfer(script, n).rest ==> e in script
    decreases |script|
  {
    if n > 0 && script != [] {
      assert forall e :: e in Tail(script) ==> e in script;
      match First(script)
      case Moved(k) => if k < n { TransferExplained(Tail(script), n - k); }
      case Again => TransferExplained(Tail(script), n);
      case _ =>
    }
  }

  /** Whatever the schedule, the loops end done, or closed by the peer, or failed, or waiting for
      ever at the end of the schedule. */
  lemma {:induction false} CarryExplained(script: seq<IoEvent>, sizes: seq<nat>)
    ensures Explained(Carry(script, sizes), script)
    decreases |sizes|
  {
    if sizes != [] {
      TransferExplained(script, sizes[0]);
      CarryExplained(Transfer(script, sizes[0]).rest, sizes[1..]);
    }
  }

  lemma {:induction false} TransferNeeds(script: seq<IoEvent>, n: nat)
    requires Open(script) && n <= Readies(script)
    ensures var f := Transfer(script, n); f.status.Done? && Open(f.rest) && Readies(script) <= Readies(f.rest) + n
    decreases |script|
  {
    if n > 0 {
      assert script[0] in script && forall e :: e in Tail(script) ==> e in script;
      match First(script)
      case Moved(k) => if k < n { TransferNeeds(Tail(script), n - k); }
      case Again => TransferNeeds(Tail(script), n);
    }
  }

  /** A schedule that is never closed and never fails carries everything once as many of its
      outcomes move something as there are bytes, however small the pieces and however many retries
      stand between them. */
  lemma {:induction false} CarryNeeds(script: seq<IoEvent>, sizes: seq<nat>)
    requires Open(script) && Total(sizes) <= Readies(script)
    ensures Carry(script, sizes).status.Done?
    decreases |sizes|
  {
    if sizes != [] {
      TransferNeeds(script, sizes[0]);
      CarryNeeds(Transfer(script, sizes[0]).rest, sizes[1..]);
    }
  }

  lemma {:induction false} CarryAppend(script: seq<IoEvent>, a: seq<nat>, b: seq<nat>)
    ensures var f := Carry(script, a); Carry(script, a + b) == if f.status.Done? then Carry(f.rest, b) else f
    decreases |a|
  {
    if a == [] {
      assert a + b == b;
    } else {
      assert (a + b)[1..] == a[1..] + b;
      CarryAppend(Transfer(script, a[0]).rest, a[1..], b);
    }
  }

  // ---------- One direction of a connection ----------

  /** Bytes written and not yet read, and the outcomes the kernel has in store for the transfers of
      headers and for those of bodies. */
  class Stream {
    var wire: seq<Byte>
    var heads: seq<IoEvent>
    var script: seq<IoEvent>

    constructor (heads: seq<IoEvent>, script: seq<IoEvent>)
      ensures wire == [] && this.heads == heads && this.script == script
    {
      this.wire, this.heads, this.script := [], heads, script;
    }

    method Next(header: bool) returns (e: IoResult)
      modifies `heads, `script
      ensures e == First(if header then old(heads) else old(script))
      ensures heads == if header then Tail(old(heads)) else old(heads)
      ensures script == if header then old(script) else Tail(old(script))
    {
      if header {
        e, heads := First(heads), Tail(heads);
      } else {
        e, script := First(script), Tail(script);
      }
    }

    /** ::write: some non-empty prefix of the data, or nothing. */
    method WriteSome(data: seq<Byte>, header: bool) returns (r: IoResult)
      requires data != []
      modifies this
      ensures r == Limited(First(if header then old(heads) else old(script)), |data|)
      ensures wire == if r.Moved? then old(wire) + data[..r.n] else old(wire)
      ensures heads == if header then Tail(old(heads)) else old(heads)
      ensures script == if header then old(script) else Tail(old(script))
    {
      r := Next(header);
      if r.Moved? {
        if r.n > |data| { r := Moved(|data|); }
        wire := wire + data[..r.n];
      }
    }

    /** ::read of at most len bytes: a non-empty prefix of what has arrived, or nothing. */
    method ReadSome(len: nat, header: bool) returns (r: IoResult, data: seq<Byte>)
      requires len > 0
      modifies this
      ensures var e := First(if header then old(heads) else old(script));
        r == if !e.Moved? then e
             else if old(wire) == [] then Again
             else Limited(Limited(e, len), |old(wire)|)
      ensures |data| == (if r.Moved? then r.n else 0) && old(wire) == data + wire
      ensures heads == if header then Tail(old(heads)) else old(heads)
      ensures script == if header then old(script) else Tail(old(script))
    {
      data := [];
      r := Next(header);
      if r.Moved? {
        if wire == [] { return Again, []; }
        var n := r.n;
        if n > len { n := len; }
        if n > |wire| { n := |wire|; }
        data := wire[..n];
        wire := wire[n..];
        r := Moved(n);
      }
    }
  }

  function Limited(e: IoResult, limit: nat): IoResult { if e.Moved? && e.n > limit then Moved(limit) else e }

  // ---------- AsyncWritePacket / AsyncReadPacket ----------

  /** The header goes out in one unchecked write, of which `header` bytes move; a write that is never
      resumed ends the packet there. The length is a uint32_t, so a payload of 2^32 bytes or more is
      cut to its low 32 bits. */
  method AsyncWritePacket(s: Stream, payload: seq<Byte>) returns (status: Status, header: nat, written: nat)
    modifies s
    ensures header <= HEADER_SIZE && written <= |payload| % UINT32_LIMIT
    ensures s.wire == old(s.wire) + LittleEndian(|payload| % UINT32_LIMIT, HEADER_SIZE)[..header] + payload[..written]
    ensures old(s.heads) == [] ==> status.Pending? && header == 0 && written == 0 && s.script == old(s.script)
    ensures old(s.heads) != [] ==>
      && Flow(status, s.script) == Transfer(old(s.script), |payload| % UINT32_LIMIT)
      && (status.Done? <==> written == |payload| % UINT32_LIMIT)
    ensures |payload| < UINT32_LIMIT && header == HEADER_SIZE ==>
      s.wire == old(s.wire) + Frame(payload)[..HEADER_SIZE + written]
    ensures s.heads == Tail(old(s.heads)) && (MoveWhole(old(s.heads), 1) ==> header == HEADER_SIZE)
  {
    hide LittleEndian;
    hide Transfer;
    if MoveWhole(s.heads, 1) { MoveWholeTail(s.heads, 1); }
    hide MoveWhole;
    var total := |payload| % UINT32_LIMIT;
    var head := LittleEndian(total, HEADER_SIZE);
    var h := s.WriteSome(head, true);
    header, written := if h.Moved? then h.n else 0, 0;
    if h.Stalled? {
      assert old(s.wire) + head[..0] + payload[..0] == old(s.wire);
      return Pending, header, written;
    }
    status, written := WriteBody(s, payload, total);
    if |payload| < UINT32_LIMIT && header == HEADER_SIZE {
      assert Frame(payload)[..HEADER_SIZE + written] == head[..header] + payload[..written];
    }
  }

  /** The body loop: already + remaining stays the announced size, and the loop ends as the schedule
      says. */
  method WriteBody(s: Stream, payload: seq<Byte>, size: nat) returns (status: Status, already: nat)
    requires size <= |payload|
    modifies s
    ensures already <= size && (status.Done? <==> already == size)
    ensures s.wire == old(s.wire) + payload[..already]
    ensures Flow(status, s.script) == Transfer(old(s.script), size) && s.heads == old(s.heads)
  {
    var remaining: nat := size;
    already := 0;
    while remaining != 0
      invariant remaining + already == size
      invariant s.wire == old(s.wire) + payload[..already]
      invariant Transfer(old(s.script), size) == Transfer(s.script, remaining) && s.heads == old(s.heads)
      decreases |s.script|, remaining
    {
      ghost var before := already;
      var r := s.WriteSome(payload[already..already + remaining], false);
      match r
      case Moved(n) =>
        remaining, already := remaining - n, already + n;
        assert payload[before..before + (remaining + n)][..n] == payload[before..already];
        assert payload[..before] + payload[before..already] == payload[..already];
      case Again =>
      case Eof => return PeerClosed, already;
      case Error => return IoError, already;
      case Stalled => return Pending, already;
    }
    status := Done;
  }

  /** `stack` is what the uninitialised head_buffer happens to hold: a header of which only some
      bytes arrive is completed from it, and the body is read with that length. A header read that is
      never resumed ends the packet there. */
  method AsyncReadPacket(s: Stream, stack: seq<Byte>) returns (status: Status, header: nat, buffer: seq<Byte>)
    requires |stack| == HEADER_SIZE
    modifies s
    ensures header <= HEADER_SIZE && header <= |old(s.wire)|
    ensures old(s.wire) == old(s.wire)[..header] + buffer + s.wire
    ensures old(s.heads) == [] ==> status.Pending? && header == 0 && buffer == [] && s.script == old(s.script)
    ensures old(s.heads) != [] ==>
      var size := FromLittleEndian(old(s.wire)[..header] + stack[header..]);
      && (status.Done? ==> |buffer| == size)
      && (header + size <= |old(s.wire)| ==> Flow(status, s.script) == Transfer(old(s.script), size))
    ensures header == HEADER_SIZE && status.Done? ==>
      |buffer| < UINT32_LIMIT && old(s.wire) == Frame(buffer) + s.wire
    ensures s.heads == Tail(old(s.heads))
    ensures MoveWhole(old(s.heads), 1) && HEADER_SIZE <= |old(s.wire)| ==> header == HEADER_SIZE
  {
    hide FromLittleEndian;
    hide Transfer;
    if MoveWhole(s.heads, 1) { MoveWholeTail(s.heads, 1); }
    hide MoveWhole;
    var h, head := s.ReadSome(HEADER_SIZE, true);
    header := |head|;
    assert old(s.wire)[..header] == head;
    if h.Stalled? { return Pending, header, []; }
    var whole := head + stack[header..];
    var total := FromLittleEndian(whole);
    status, buffer := ReadBody(s, total);
    assert head + (buffer + s.wire) == head + buffer + s.wire;
    if header == HEADER_SIZE && status.Done? {
      assert whole == head;
      FrameOf(head, buffer);
    }
  }

  lemma FrameOf(head: seq<Byte>, body: seq<Byte>)
    requires |head| == HEADER_SIZE && FromLittleEndian(head) == |body|
    ensures |body| < UINT32_LIMIT && head + body == Frame(body)
  {
    Pow256Values();
    FromLittleEndianInverse(head);
  }

  method ReadBody(s: Stream, size: nat) returns (status: Status, buffer: seq<Byte>)
    modifies s
    ensures old(s.wire) == buffer + s.wire && |buffer| <= size
    ensures status.Done? <==> |buffer| == size
    ensures size <= |old(s.wire)| ==> Flow(status, s.script) == Transfer(old(s.script), size)
    ensures s.heads == old(s.heads)
  {
    buffer := [];
    var remaining: nat, already: nat := size, 0;
    while remaining != 0
      invariant remaining + already == size && |buffer| == already
      invariant old(s.wire) == buffer + s.wire && s.heads == old(s.heads)
      invariant size <= |old(s.wire)| ==> Transfer(old(s.script), size) == Transfer(s.script, remaining)
      decreases |s.script|, remaining
    {
      var r, data := s.ReadSome(remaining, false);
      match r
      case Moved(n) =>
        buffer := buffer + data;
        remaining, already := remaining - n, already + n;
      case Again =>
      case Eof => return PeerClosed, buffer;
      case Error => return IoError, buffer;
      case Stalled => return Pending, buffer;
    }
    status := Done;
  }

  // ---------- Whole streams ----------

  lemma CarryNone(script: seq<IoEvent>)
    ensures Carry(script, []) == Flow(Done, script)
  {
  }

  lemma CarryRound(script: seq<IoEvent>, ps: seq<seq<Byte>>, i: nat)
    requires i < |ps|
    ensures var f := Transfer(script, |ps[i]|);
      Carry(script, Sizes(ps)[i..]) == if f.status.Done? then Carry(f.rest, Sizes(ps)[i + 1..]) else f
  {
    assert Sizes(ps)[i..][1..] == Sizes(ps)[i + 1..];
  }

  /** Write packets until one fails; `spare` whole header transfers are left for later use. */
  method WriteAll(s: Stream, ps: seq<seq<Byte>>, ghost spare: nat) returns (ok: bool, whole: bool)
    requires Small(ps)
    modifies s
    ensures ok && whole ==> s.wire == old(s.wire) + Frames(ps)
    ensures ok ==> Carry(old(s.script), Sizes(ps)) == Flow(Done, s.script)
    ensures MoveWhole(old(s.heads), |ps| + spare) && Carry(old(s.script), Sizes(ps)).status.Done? ==> ok
    ensures ok && MoveWhole(old(s.heads), |ps| + spare) ==> whole && MoveWhole(s.heads, spare)
  {
    hide Carry;
    hide Frame;
    hide Frames;
    hide LittleEndian;
    hide Transfer;
    hide MoveWhole;
    FramesNone();
    assert Sizes(ps)[0..] == Sizes(ps) && ps[..0] == [];
    whole := true;
    var i := 0;
    while i < |ps|
      invariant 0 <= i <= |ps|
      invariant whole ==> s.wire == old(s.wire) + Frames(ps[..i])
      invariant Carry(old(s.script), Sizes(ps)) == Carry(s.script, Sizes(ps)[i..])
      invariant MoveWhole(old(s.heads), |ps| + spare) ==> whole && MoveWhole(s.heads, |ps| - i + spare)
    {
      CarryRound(s.script, ps, i);
      if MoveWhole(s.heads, |ps| - i + spare) { MoveWholeTail(s.heads, |ps| - i + spare); }
      var status, header, written := AsyncWritePacket(s, ps[i]);
      if !status.Done? { return false, whole; }
      if header == HEADER_SIZE { assert Frame(ps[i])[..HEADER_SIZE + written] == Frame(ps[i]); }
      whole := whole && header == HEADER_SIZE;
      FramesAppend(ps[..i], ps[i]);
      assert ps[..i + 1] == ps[..i] + [ps[i]];
      i := i + 1;
    }
    assert ps[..i] == ps && Sizes(ps)[i..] == [];
    CarryNone(s.script);
    ok := true;
  }

  lemma FrameHeader(p: seq<Byte>, rest: seq<Byte>)
    requires |p| < UINT32_LIMIT
    ensures FromLittleEndian((Frame(p) + rest)[..HEADER_SIZE]) == |p|
  {
    Pow256Values();
    assert (Frame(p) + rest)[..HEADER_SIZE] == LittleEndian(|p|, HEADER_SIZE);
    LittleEndianInverse(|p|, HEADER_SIZE);
  }

  /** AsyncReadPacket where `p` is the packet sent first, if only whole headers were written. */
  method ReadSent(s: Stream, stack: seq<Byte>, ghost p: seq<Byte>, ghost rest: seq<Byte>)
    returns (ok: bool, whole: bool, buffer: seq<Byte>)
    requires |stack| == HEADER_SIZE
    modifies s
    ensures ok && whole ==> |buffer| < UINT32_LIMIT && old(s.wire) == Frame(buffer) + s.wire
    ensures s.heads == Tail(old(s.heads))
    ensures |p| < UINT32_LIMIT && old(s.wire) == Frame(p) + rest && MoveWhole(old(s.heads), 1) ==>
      var f := Transfer(old(s.script), |p|);
      whole && (ok <==> f.status.Done?) && s.script == f.rest && (ok ==> buffer == p && s.wire == rest)
  {
    hide Frame;
    hide Transfer;
    hide MoveWhole;
    hide FromLittleEndian;
    ghost var wire := s.wire;
    var status, header;
    status, header, buffer := AsyncReadPacket(s, stack);
    ok, whole := status.Done?, header == HEADER_SIZE;
    if |p| < UINT32_LIMIT && wire == Frame(p) + rest && whole {
      FrameHeader(p, rest);
      assert wire[..HEADER_SIZE] + stack[HEADER_SIZE..] == wire[..HEADER_SIZE];
      if ok { FrameUnique(p, buffer, rest, s.wire); }
    }
  }

  /** Read n packets. `sent` is what the wire holds if only whole headers were written. */
  method ReadAll(s: Stream, n: nat, stack: seq<Byte>, ghost sent: seq<seq<Byte>>)
    returns (ok: bool, whole: bool, ps: seq<seq<Byte>>)
    requires |stack| == HEADER_SIZE
    modifies s
    ensures ok && whole ==> |ps| == n && Small(ps) && old(s.wire) == Frames(ps) + s.wire
    ensures |sent| == n && Small(sent) && old(s.wire) == Frames(sent) && MoveWhole(old(s.heads), n) ==>
      whole && (ok <==> Carry(old(s.script), Sizes(sent)).status.Done?)
  {
    FramesNone();
    hide Small;
    hide Sizes;
    hide Carry;
    hide Frame;
    hide Frames;
    hide Transfer;
    hide MoveWhole;
    hide FromLittleEndian;
    assert sent[0..] == sent && Sizes(sent)[0..] == Sizes(sent);
    ps, whole := [], true;
    ghost var fit := |sent| == n && Small(sent) && s.wire == Frames(sent) && MoveWhole(s.heads, n);
    while |ps| < n
      invariant |ps| <= n
      invariant whole ==> Small(ps) && old(s.wire) == Frames(ps) + s.wire
      invariant fit ==> whole && s.wire == Frames(sent[|ps|..]) && MoveWhole(s.heads, n - |ps|)
      invariant fit ==> Carry(old(s.script), Sizes(sent)) == Carry(s.script, Sizes(sent)[|ps|..])
    {
      ghost var k := |ps|;
      if fit {
        MoveWholeTail(s.heads, n - k);
        CarryRound(s.script, sent, k);
        FramesFrom(sent, k);
      }
      var done, header, p := ReadSent(s, stack, if fit then sent[k] else [], if fit then Frames(sent[k + 1..]) else []);
      if !done { return false, whole, ps; }
      whole := whole && header;
      if whole { FramesExtend(ps, p, s.wire); }
      ps := ps + [p];
    }
    if fit {
      assert Sizes(sent)[n..] == [];
      CarryNone(s.script);
    }
    ok := true;
  }

  /** Whatever the schedule of short transfers and retries in either direction, as long as headers
      move whole: the packets come out as they went in, and leave the stream empty, if and only if
      the schedule carries all the bodies twice. */
  method Relay(s: Stream, ps: seq<seq<Byte>>, stack: seq<Byte>) returns (ok: bool, whole: bool, qs: seq<seq<Byte>>)
    requires Small(ps) && s.wire == [] && |stack| == HEADER_SIZE
    modifies s
    ensures ok && whole ==> qs == ps && s.wire == []
    ensures MoveWhole(old(s.heads), 2 * |ps|) ==>
      (ok && whole <==> Carry(old(s.script), Sizes(ps) + Sizes(ps)).status.Done?)
  {
    hide Carry;
    hide Frames;
    hide MoveWhole;
    qs := [];
    CarryAppend(s.script, Sizes(ps), Sizes(ps));
    assert 2 * |ps| == |ps| + |ps|;
    ok, whole := WriteAll(s, ps, |ps|);
    if !ok { return; }
    var all;
    assert [] + Frames(ps) == Frames(ps) == Frames(ps) + [];
    ok, all, qs := ReadAll(s, |ps|, stack, ps);
    whole := whole && all;
    if ok && whole {
      FramesUnique(ps, qs, [], s.wire);
    }
  }
}
