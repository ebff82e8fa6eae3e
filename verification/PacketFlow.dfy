/** AsyncWritePacket and AsyncReadPacket at work on one stream at the same time
    (luce/io/io_awaiter.cpp).

    The steps are single transfers: a header moves whole, a body in pieces of any size, as far as the
    stream's buffer of `cap` bytes allows. A retry changes nothing and is not a step. A transfer that
    is closed or fails ends the run where it stands.
  */
module PacketFlow {
  import opened Options
  import opened Bytes
  import opened Packet

  // A body that is being read: what is still missing, and what has been read.
  datatype Reading = Reading(missing: nat, buffer: seq<Byte>)

  /** `todo`: the packets whose header is still to be written. `sending`: what is left to write of the
      body after the last header. `got`: the packets read so far. */
  datatype State = State(
    todo: seq<seq<Byte>>,
    sending: Option<seq<Byte>>,
    wire: seq<Byte>,
    reading: Option<Reading>,
    got: seq<seq<Byte>>)

  datatype Action = WriteHead | WriteSome(n: nat) | EndWrite | ReadHead | ReadSome(n: nat) | EndRead

  function Init(ps: seq<seq<Byte>>): State { State(ps, None, [], None, []) }

  predicate Enabled(s: State, a: Action, cap: nat) {
    match a
    case WriteHead => s.sending.None? && s.todo != [] && |s.wire| + HEADER_SIZE <= cap
    case WriteSome(n) => s.sending.Some? && 0 < n <= |s.sending.value| && |s.wire| + n <= cap
    case EndWrite => s.sending == Some([])
    case ReadHead => s.reading.None? && HEADER_SIZE <= |s.wire|
    case ReadSome(n) => s.reading.Some? && 0 < n <= s.reading.value.missing && n <= |s.wire|
    case EndRead => s.reading.Some? && s.reading.value.missing == 0
  }

  function Step(s: State, a: Action, cap: nat): State
    requires Enabled(s, a, cap)
  {
    match a
    case WriteHead =>
      s.(todo := s.todo[1..], sending := Some(s.todo[0]), wire := s.wire + LittleEndian(|s.todo[0]|, HEADER_SIZE))
    case WriteSome(n) =>
      s.(sending := Some(s.sending.value[n..]), wire := s.wire + s.sending.value[..n])
    case EndWrite => s.(sending := None)
    case ReadHead =>
      s.(wire := s.wire[HEADER_SIZE..], reading := Some(Reading(FromLittleEndian(s.wire[..HEADER_SIZE]), [])))
    case ReadSome(n) =>
      var r := s.reading.value;
      s.(wire := s.wire[n..], reading := Some(Reading(r.missing - n, r.buffer + s.wire[..n])))
    case EndRead => s.(reading := None, got := s.got + [s.reading.value.buffer])
  }

  // ---------- The invariant ----------

  // What the reader has taken of a frame, and what the writer has still to write of one.
  ghost function Taken(s: State): seq<Byte> {
    match s.reading
    case None => []
    case Some(r) => LittleEndian(r.missing + |r.buffer|, HEADER_SIZE) + r.buffer
  }

  ghost function Unsent(s: State): seq<Byte> { if s.sending.None? then [] else s.sending.value }

  // How many headers have been written.
  ghost function Begun(s: State, ps: seq<seq<Byte>>): int { |ps| - |s.todo| }

  /** The packets read are the first of those sent; the packet being read and the one being written
      are the next after those read and the last of those begun. */
  ghost predicate Counts(s: State, ps: seq<seq<Byte>>, cap: nat) {
    && Small(ps) && |s.wire| <= cap && |s.got| <= Begun(s, ps)
    && s.got == ps[..|s.got|] && s.todo == ps[Begun(s, ps)..]
    && (s.sending.Some? ==> Begun(s, ps) > 0 && |s.sending.value| <= |ps[Begun(s, ps) - 1]|)
    && (s.reading.Some? ==> |s.got| < Begun(s, ps)
                            && s.reading.value.missing + |s.reading.value.buffer| == |ps[|s.got|]|)
  }

  // The packets begun and not yet read.
  ghost function OnTheWay(s: State, ps: seq<seq<Byte>>): seq<seq<Byte>>
    requires 0 <= |s.got| <= Begun(s, ps)
  {
    ps[|s.got|..Begun(s, ps)]
  }

  /** What is on its way makes up their frames. */
  ghost predicate Inv(s: State, ps: seq<seq<Byte>>, cap: nat) {
    Counts(s, ps, cap) && Taken(s) + s.wire + Unsent(s) == Frames(OnTheWay(s, ps))
  }

  lemma InitInv(ps: seq<seq<Byte>>, cap: nat)
    requires Small(ps)
    ensures Inv(Init(ps), ps, cap)
  {
    hide Small;
    hide Frames;
    hide LittleEndian;
    FramesNone();
    assert ps[..0] == [] && ps[0..] == ps;
    assert OnTheWay(Init(ps), ps) == [];
    assert Taken(Init(ps)) + [] + Unsent(Init(ps)) == [];
  }

  // Bytes that change hands stay where they are in the stream.
  lemma Reader(t: seq<Byte>, w: seq<Byte>, u: seq<Byte>, n: nat)
    requires n <= |w|
    ensures t + w[..n] + w[n..] + u == t + w + u
  {
    assert w == w[..n] + w[n..];
  }

  lemma Writer(t: seq<Byte>, w: seq<Byte>, u: seq<Byte>, n: nat)
    requires n <= |u|
    ensures t + (w + u[..n]) + u[n..] == t + w + u
  {
    assert u == u[..n] + u[n..];
  }

  lemma Regroup(a: seq<Byte>, b: seq<Byte>, c: seq<Byte>)
    ensures a + b + c == a + (b + c)
  {
  }

  lemma WriteHeadCounts(s: State, ps: seq<seq<Byte>>, cap: nat)
    requires Counts(s, ps, cap) && Enabled(s, WriteHead, cap)
    ensures Counts(Step(s, WriteHead, cap), ps, cap)
    ensures OnTheWay(Step(s, WriteHead, cap), ps) == OnTheWay(s, ps) + [s.todo[0]]
  {
    hide Small;
    hide LittleEndian;
    var j := Begun(s, ps);
    assert s.todo[0] == ps[j] && s.todo[1..] == ps[j + 1..];
  }

  lemma WriteHeadKeepsInv(s: State, ps: seq<seq<Byte>>, cap: nat)
    requires Inv(s, ps, cap) && Enabled(s, WriteHead, cap)
    ensures Inv(Step(s, WriteHead, cap), ps, cap)
  {
    WriteHeadCounts(s, ps, cap);
    hide Counts;
    hide Frames;
    hide Frame;
    hide LittleEndian;
    var p := s.todo[0];
    FramesAppend(OnTheWay(s, ps), p);
    FrameIs(p);
    var head, s' := LittleEndian(|p|, HEADER_SIZE), Step(s, WriteHead, cap);
    assert Taken(s') == Taken(s) && s'.wire == s.wire + head && Unsent(s) == [] && Unsent(s') == p;
    hide Step;
    hide Taken;
    hide Unsent;
    HeadWritten(Taken(s), s.wire, head, p);
  }

  lemma HeadWritten(t: seq<Byte>, w: seq<Byte>, head: seq<Byte>, p: seq<Byte>)
    ensures t + (w + head) + p == t + w + [] + (head + p)
  {
    assert t + w + [] == t + w;
  }

  lemma PieceRead(head: seq<Byte>, b: seq<Byte>, w: seq<Byte>, u: seq<Byte>, n: nat)
    requires n <= |w|
    ensures head + (b + w[..n]) + w[n..] + u == head + b + w + u
  {
    Regroup(head, b, w[..n]);
    Reader(head + b, w, u, n);
  }

  lemma FrameIs(p: seq<Byte>)
    ensures Frame(p) == LittleEndian(|p|, HEADER_SIZE) + p
  {
  }

  lemma WriteSomeKeepsInv(s: State, n: nat, ps: seq<seq<Byte>>, cap: nat)
    requires Inv(s, ps, cap) && Enabled(s, WriteSome(n), cap)
    ensures Inv(Step(s, WriteSome(n), cap), ps, cap)
  {
    hide Frames;
    hide LittleEndian;
    Writer(Taken(s), s.wire, s.sending.value, n);
  }

  lemma EndWriteKeepsInv(s: State, ps: seq<seq<Byte>>, cap: nat)
    requires Inv(s, ps, cap) && Enabled(s, EndWrite, cap)
    ensures Inv(Step(s, EndWrite, cap), ps, cap)
  {
    hide Frames;
    hide LittleEndian;
  }

  lemma BegunIfWire(s: State, ps: seq<seq<Byte>>, cap: nat)
    requires Inv(s, ps, cap) && s.wire != []
    ensures |s.got| < Begun(s, ps)
  {
    hide LittleEndian;
    assert |Taken(s) + s.wire + Unsent(s)| > 0;
  }

  // While something is begun and unread, the frame the reader is at stands in front.
  lemma FrontFrame(s: State, ps: seq<seq<Byte>>, cap: nat)
    requires Inv(s, ps, cap) && |s.got| < Begun(s, ps)
    ensures var p := ps[|s.got|];
      |p| < UINT32_LIMIT && Taken(s) + (s.wire + Unsent(s)) == Frame(p) + Frames(OnTheWay(s, ps)[1..])
  {
    hide LittleEndian;
    hide Frame;
    var way := OnTheWay(s, ps);
    assert way[0] == ps[|s.got|];
    assert Frames(way) == Frame(way[0]) + Frames(way[1..]);
    hide Frames;
    Regroup(Taken(s), s.wire, Unsent(s));
  }

  lemma {:induction false} LastFrame(ps: seq<seq<Byte>>)
    requires ps != []
    ensures |Frames(ps)| >= HEADER_SIZE + |ps[|ps| - 1]|
  {
    var n := |ps| - 1;
    assert ps == ps[..n] + [ps[n]];
    FramesAppend(ps[..n], ps[n]);
  }

  // A header is never split on the stream.
  lemma HeaderIsThere(s: State, ps: seq<seq<Byte>>, cap: nat)
    requires Inv(s, ps, cap) && s.reading.None? && |s.got| < Begun(s, ps)
    ensures |s.wire| >= HEADER_SIZE
  {
    LastFrame(OnTheWay(s, ps));
    hide Frames;
  }

  lemma HeadOf(w: seq<Byte>, u: seq<Byte>, p: seq<Byte>, rest: seq<Byte>)
    requires |p| < UINT32_LIMIT && |w| >= HEADER_SIZE && w + u == Frame(p) + rest
    ensures FromLittleEndian(w[..HEADER_SIZE]) == |p| && w[..HEADER_SIZE] == LittleEndian(|p|, HEADER_SIZE)
  {
    hide LittleEndian;
    hide FromLittleEndian;
    assert w[..HEADER_SIZE] == (w + u)[..HEADER_SIZE] == LittleEndian(|p|, HEADER_SIZE);
    FrameHeader(p, rest);
  }

  lemma ReadHeadCounts(s: State, ps: seq<seq<Byte>>, cap: nat)
    requires Counts(s, ps, cap) && Enabled(s, ReadHead, cap) && |s.got| < Begun(s, ps)
    requires FromLittleEndian(s.wire[..HEADER_SIZE]) == |ps[|s.got|]|
    ensures Counts(Step(s, ReadHead, cap), ps, cap)
    ensures OnTheWay(Step(s, ReadHead, cap), ps) == OnTheWay(s, ps)
  {
    hide Small;
    hide FromLittleEndian;
  }

  lemma ReadHeadKeepsInv(s: State, ps: seq<seq<Byte>>, cap: nat)
    requires Inv(s, ps, cap) && Enabled(s, ReadHead, cap)
    ensures Inv(Step(s, ReadHead, cap), ps, cap)
  {
    BegunIfWire(s, ps, cap);
    FrontFrame(s, ps, cap);
    hide Frames;
    hide Frame;
    hide LittleEndian;
    hide FromLittleEndian;
    var p, w, u := ps[|s.got|], s.wire, Unsent(s);
    assert [] + (w + u) == w + u;
    HeadOf(w, u, p, Frames(OnTheWay(s, ps)[1..]));
    ReadHeadCounts(s, ps, cap);
    hide Counts;
    Reader([], w, u, HEADER_SIZE);
    var head := w[..HEADER_SIZE];
    assert [] + head == head == head + [];
    assert Taken(Step(s, ReadHead, cap)) == head;
  }

  lemma ReadSomeCounts(s: State, n: nat, ps: seq<seq<Byte>>, cap: nat)
    requires Counts(s, ps, cap) && Enabled(s, ReadSome(n), cap)
    ensures Counts(Step(s, ReadSome(n), cap), ps, cap)
    ensures OnTheWay(Step(s, ReadSome(n), cap), ps) == OnTheWay(s, ps)
  {
    hide Small;
  }

  lemma ReadSomeKeepsInv(s: State, n: nat, ps: seq<seq<Byte>>, cap: nat)
    requires Inv(s, ps, cap) && Enabled(s, ReadSome(n), cap)
    ensures Inv(Step(s, ReadSome(n), cap), ps, cap)
  {
    hide Frames;
    hide LittleEndian;
    ReadSomeCounts(s, n, ps, cap);
    hide Counts;
    var r, s' := s.reading.value, Step(s, ReadSome(n), cap);
    var head := LittleEndian(r.missing + |r.buffer|, HEADER_SIZE);
    assert Taken(s) == head + r.buffer && Taken(s') == head + (r.buffer + s.wire[..n]);
    assert s'.wire == s.wire[n..] && Unsent(s') == Unsent(s);
    hide Step;
    hide Taken;
    hide Unsent;
    PieceRead(head, r.buffer, s.wire, Unsent(s), n);
  }

  lemma EndReadKeepsInv(s: State, ps: seq<seq<Byte>>, cap: nat)
    requires Inv(s, ps, cap) && Enabled(s, EndRead, cap)
    ensures Inv(Step(s, EndRead, cap), ps, cap)
  {
    var k, buffer, way := |s.got|, s.reading.value.buffer, OnTheWay(s, ps);
    FrontFrame(s, ps, cap);
    assert Taken(s) == Frame(buffer);
    hide Frames;
    hide Frame;
    hide LittleEndian;
    FrameUnique(buffer, ps[k], s.wire + Unsent(s), Frames(way[1..]));
    assert ps[..k + 1] == ps[..k] + [ps[k]];
    assert OnTheWay(Step(s, EndRead, cap), ps) == way[1..];
    assert [] + s.wire == s.wire;
  }

  lemma StepKeepsInv(s: State, a: Action, ps: seq<seq<Byte>>, cap: nat)
    requires Inv(s, ps, cap) && Enabled(s, a, cap)
    ensures Inv(Step(s, a, cap), ps, cap)
  {
    hide Inv;
    match a
    case ReadHead => ReadHeadKeepsInv(s, ps, cap);
    case ReadSome(n) => ReadSomeKeepsInv(s, n, ps, cap);
    case EndRead => EndReadKeepsInv(s, ps, cap);
    case WriteHead => WriteHeadKeepsInv(s, ps, cap);
    case WriteSome(n) => WriteSomeKeepsInv(s, n, ps, cap);
    case EndWrite => EndWriteKeepsInv(s, ps, cap);
  }

  // ---------- Runs ----------

  ghost predicate Allowed(s: State, run: seq<Action>, cap: nat)
    decreases |run|
  {
    run == [] || (Enabled(s, run[0], cap) && Allowed(Step(s, run[0], cap), run[1..], cap))
  }

  ghost function Run(s: State, run: seq<Action>, cap: nat): State
    requires Allowed(s, run, cap)
    decreases |run|
  {
    if run == [] then s else Run(Step(s, run[0], cap), run[1..], cap)
  }

  // The most transfers and loop ends that reading, or writing, these packets can take.
  function Load(ps: seq<seq<Byte>>): nat { if ps == [] then 0 else |ps[0]| + 2 + Load(ps[1..]) }

  /** What is left to do, in transfers of one byte. */
  ghost function Work(s: State, ps: seq<seq<Byte>>): int
    requires |s.got| <= |ps|
  {
    Load(s.todo) + (if s.sending.Some? then |s.sending.value| + 1 else 0)
    + Load(ps[|s.got|..]) - (if s.reading.Some? then |s.reading.value.buffer| + 1 else 0)
  }

  lemma StepWorks(s: State, a: Action, ps: seq<seq<Byte>>, cap: nat)
    requires Enabled(s, a, cap) && Counts(s, ps, cap) && Counts(Step(s, a, cap), ps, cap)
    ensures |s.got| <= |ps| && |Step(s, a, cap).got| <= |ps|
    ensures Work(Step(s, a, cap), ps) < Work(s, ps)
  {
    var k := |s.got|;
    if k < |ps| { assert ps[k..][1..] == ps[k + 1..] && ps[k..][0] == ps[k]; }
    hide LittleEndian;
    hide FromLittleEndian;
  }

  lemma WorkLeft(s: State, ps: seq<seq<Byte>>, cap: nat)
    requires Counts(s, ps, cap)
    ensures |s.got| <= |ps| && 0 <= Work(s, ps)
  {
    var k := |s.got|;
    if k < |ps| { assert ps[k..][0] == ps[k]; }
  }

  lemma {:induction false} RunKeepsInv(s: State, run: seq<Action>, ps: seq<seq<Byte>>, cap: nat)
    requires Inv(s, ps, cap) && Allowed(s, run, cap)
    ensures Inv(Run(s, run, cap), ps, cap)
    ensures |s.got| <= |ps| && |Run(s, run, cap).got| <= |ps|
    ensures |run| + Work(Run(s, run, cap), ps) <= Work(s, ps)
    decreases |run|
  {
    WorkLeft(s, ps, cap);
    if run != [] {
      StepKeepsInv(s, run[0], ps, cap);
      StepWorks(s, run[0], ps, cap);
      hide Step;
      hide Work;
      hide Inv;
      RunKeepsInv(Step(s, run[0], cap), run[1..], ps, cap);
    }
  }

  ghost predicate Stuck(s: State, cap: nat) { forall a :: !Enabled(s, a, cap) }

  /** Writer and reader never wait for each other for ever: with room for one header on the stream they
      stop only when everything has been delivered. */
  lemma StuckOnlyWhenDelivered(s: State, ps: seq<seq<Byte>>, cap: nat)
    requires Inv(s, ps, cap) && cap >= HEADER_SIZE && Stuck(s, cap)
    ensures s.got == ps && s.wire == [] && s.todo == [] && s.sending.None? && s.reading.None?
  {
    assert !Enabled(s, ReadHead, cap) && !Enabled(s, EndRead, cap) && !Enabled(s, ReadSome(1), cap);
    assert !Enabled(s, WriteHead, cap) && !Enabled(s, EndWrite, cap) && !Enabled(s, WriteSome(1), cap);
    hide LittleEndian;
    hide FromLittleEndian;
    if s.reading.None? && |s.got| < Begun(s, ps) { HeaderIsThere(s, ps, cap); }
    if s.reading.Some? { NothingMissing(s, ps, cap); }
    assert |s.got| == Begun(s, ps);
    assert OnTheWay(s, ps) == [];
  }

  // With the stream empty and nothing left to send of the last packet begun, nothing is missing.
  lemma NothingMissing(s: State, ps: seq<seq<Byte>>, cap: nat)
    requires Inv(s, ps, cap) && s.reading.Some? && s.wire == [] && Unsent(s) == []
    ensures s.reading.value.missing == 0
  {
    FrontFrame(s, ps, cap);
    hide Frames;
    assert |Taken(s) + (s.wire + Unsent(s))| == HEADER_SIZE + |s.reading.value.buffer|;
  }

  /** Every interleaving of a writer and a reader, over a stream buffer of any size: what has been read
      is at every moment a prefix of what was to be sent, packet by packet; a run takes a bounded number
      of transfers; and one that cannot go on has delivered every packet as it was sent. */
  lemma EveryInterleaving(ps: seq<seq<Byte>>, run: seq<Action>, cap: nat)
    requires Small(ps) && Allowed(Init(ps), run, cap)
    ensures var s := Run(Init(ps), run, cap);
      && s.got <= ps && |run| <= 2 * Load(ps)
      && (cap >= HEADER_SIZE && Stuck(s, cap) ==> s.got == ps && s.wire == [])
  {
    InitInv(ps, cap);
    RunKeepsInv(Init(ps), run, ps, cap);
    var s := Run(Init(ps), run, cap);
    assert ps[0..] == ps;
    WorkLeft(s, ps, cap);
    if cap >= HEADER_SIZE && Stuck(s, cap) { StuckOnlyWhenDelivered(s, ps, cap); }
  }
}
