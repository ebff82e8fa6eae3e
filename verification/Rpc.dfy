/** The RPC layer: BlockingRpcClient::Call against RpcServer::OnRequest. */
module RpcFormat {
  import opened Bytes
  import opened Slices
  import opened SerializerFormat

  const RPC_SUCCESS: nat := 0
  const RPC_ERR_FUNCTION_NOT_FOUND: nat := 1
  const RPC_ERR_RECV_TIMEOUT: nat := 2

  /** A bound std::function<R(Params...)> with R not void; what it computes is its own affair. */
  datatype Handler = Handler(params: seq<Ty>, ret: Ty, fn: seq<Val> -> Val)

  // The C++ type of a bound function, as a fact about what it returns.
  ghost predicate Typed(h: Handler) {
    forall args :: HaveTypes(args, h.params) ==> HasType(h.fn(args), h.ret)
  }

  type Handlers = map<seq<Byte>, Handler>

  // RpcResponse<R>: uint16_t err_code, std::string err_msg, R detail_value.
  function ResponseType(ret: Ty): Ty { Product([Scalar(2), Str, ret]) }

  function Response(code: nat, msg: seq<Byte>, detail: Val): Val { Fields([Num(code), Text(msg), detail]) }

  function Request(name: seq<Byte>, args: seq<Val>, params: seq<Ty>): seq<Byte> {
    Encode(Text(name), Str) + EncodeFields(args, params)
  }

  // "function not bind: "
  const NOT_BOUND: seq<Byte> :=
    [102, 117, 110, 99, 116, 105, 111, 110, 32, 110, 111, 116, 32, 98, 105, 110, 100, 58, 32]

  /** The not-found reply carries a code and a message, but no detail value. */
  function NotFoundReply(name: seq<Byte>): seq<Byte> {
    Encode(Num(RPC_ERR_FUNCTION_NOT_FOUND), Scalar(2)) + Encode(Text(NOT_BOUND + name), Str)
  }

  function Reply(h: Handler, args: seq<Val>): seq<Byte> {
    Encode(Response(RPC_SUCCESS, [], h.fn(args)), ResponseType(h.ret))
  }

  /** The bytes the server answers a request with; Overrun when the request is too short. */
  function Serve(handlers: Handlers, request: seq<Byte>): Decoded<seq<Byte>> {
    var name := Decode(Str, request, 0);
    if !name.Got? then Overrun
    else if name.value.bytes !in handlers then Got(NotFoundReply(name.value.bytes), 0) else
    var h := handlers[name.value.bytes];
    var args := DecodeFields(h.params, request, name.next);
    if args.Got? then Got(Reply(h, args.value), 0) else Overrun
  }

  lemma ResponseHasType(code: nat, msg: seq<Byte>, v: Val, ret: Ty)
    requires code < 0x1_0000 && HasType(v, ret)
    ensures HasType(Response(code, msg, v), ResponseType(ret))
  {
    Pow256Values();
    var vs, ts := [Num(code), Text(msg), v], [Scalar(2), Str, ret];
    assert HasType(vs[0], ts[0]) && HasType(vs[1], ts[1]) && HasType(vs[2], ts[2]);
    assert HaveTypes(vs, ts);
  }

  // What a caller must hand over, and what the handler must give back, to be serializable.
  ghost predicate Callable(h: Handler, args: seq<Val>) {
    && HaveTypes(args, h.params) && (forall i :: 0 <= i < |args| ==> Fits(args[i]))
    && Typed(h) && Fits(h.fn(args))
  }

  /** The server decodes exactly the name and the arguments the client encoded. */
  lemma ServeRequest(handlers: Handlers, name: seq<Byte>, args: seq<Val>)
    requires name in handlers && Callable(handlers[name], args)
    requires |Request(name, args, handlers[name].params)| < INT32_LIMIT
    ensures Serve(handlers, Request(name, args, handlers[name].params)) == Got(Reply(handlers[name], args), 0)
  {
    var h := handlers[name];
    var n, a := Encode(Text(name), Str), EncodeFields(args, h.params);
    var buf := Request(name, args, h.params);
    assert At(buf, 0, n + a);
    AtSplit(buf, 0, n, a);
    DecodeEncode(Text(name), Str, buf, 0);
    DecodeEncodeFields(args, h.params, buf, |n|);
  }

  /** The client reads back success, no message, and the handler's own result. */
  lemma ReadReply(h: Handler, args: seq<Val>)
    requires Callable(h, args) && |Reply(h, args)| < INT32_LIMIT
    ensures Decode(ResponseType(h.ret), Reply(h, args), 0)
         == Got(Response(RPC_SUCCESS, [], h.fn(args)), |Reply(h, args)|)
  {
    var v, ty := Response(RPC_SUCCESS, [], h.fn(args)), ResponseType(h.ret);
    ResponseHasType(RPC_SUCCESS, [], h.fn(args), h.ret);
    assert At(Reply(h, args), 0, Encode(v, ty));
    DecodeEncode(v, ty, Reply(h, args), 0);
  }

  /** A request is the name with its length in front, then the arguments. */
  lemma RequestBytes(name: seq<Byte>, args: seq<Val>, params: seq<Ty>)
    ensures Request(name, args, params) == LittleEndian(|name|, 8) + name + EncodeFields(args, params)
  {
  }

  /** A reply is code 0 in two bytes, a message of length 0 in eight, and the result. */
  lemma ReplyBytes(h: Handler, args: seq<Val>)
    ensures Reply(h, args) == [0, 0] + [0, 0, 0, 0, 0, 0, 0, 0] + Encode(h.fn(args), h.ret)
  {
    var vs, ts := [Num(0), Text([]), h.fn(args)], [Scalar(2), Str, h.ret];
    LittleEndianImages(0);
    assert vs[1..] == [Text([]), h.fn(args)] && vs[1..][1..] == [h.fn(args)] && vs[1..][1..][1..] == [];
    assert ts[1..] == [Str, h.ret] && ts[1..][1..] == [h.ret];
    var e := Encode(h.fn(args), h.ret);
    assert EncodeFields([h.fn(args)], [h.ret]) == e;
    assert Encode(Text([]), Str) == [0, 0, 0, 0, 0, 0, 0, 0];
    assert EncodeFields(vs, ts) == [0, 0] + ([0, 0, 0, 0, 0, 0, 0, 0] + e);
  }

  /** The reply to an unbound name is code 1 in two bytes and "function not bind: " with the name, and
      that is what it is read back as. */
  lemma NotFoundReplyReads(handlers: Handlers, name: seq<Byte>, args: seq<Val>, params: seq<Ty>)
    requires name !in handlers && |Request(name, args, params)| < INT32_LIMIT && 29 + |name| < INT32_LIMIT
    ensures Serve(handlers, Request(name, args, params)).Got?
    ensures var r := Serve(handlers, Request(name, args, params)).value;
      var text := [102, 117, 110, 99, 116, 105, 111, 110, 32, 110, 111, 116, 32, 98, 105, 110, 100, 58, 32] + name;
      && r == [1, 0] + LittleEndian(|text|, 8) + text
      && DecodeFields([Scalar(2), Str], r, 0) == Got([Num(1), Text(text)], |r|)
  {
    UnboundIsAnswered(handlers, name, args, params);
    hide Serve;
    hide Request;
    NotFoundReplyFields(name);
  }

  lemma UnboundIsAnswered(handlers: Handlers, name: seq<Byte>, args: seq<Val>, params: seq<Ty>)
    requires name !in handlers && |Request(name, args, params)| < INT32_LIMIT
    ensures Serve(handlers, Request(name, args, params)) == Got(NotFoundReply(name), 0)
  {
    var n, buf := Encode(Text(name), Str), Request(name, args, params);
    assert At(buf, 0, n);
    DecodeEncode(Text(name), Str, buf, 0);
  }

  lemma NotFoundReplyFields(name: seq<Byte>)
    requires 29 + |name| < INT32_LIMIT
    ensures var r, text := NotFoundReply(name), NOT_BOUND + name;
      && r == [1, 0] + LittleEndian(|text|, 8) + text
      && DecodeFields([Scalar(2), Str], r, 0) == Got([Num(1), Text(text)], |r|)
  {
    var r, text := NotFoundReply(name), NOT_BOUND + name;
    assert Encode(Num(1), Scalar(2)) == [1, 0] by { LittleEndianImages(1); }
    hide LittleEndian;
    Regroup([1, 0], LittleEndian(|text|, 8), text);
    var vs, ts := [Num(1), Text(text)], [Scalar(2), Str];
    EncodeTwo(vs, ts);
    Pow256Values();
    assert HasType(vs[0], ts[0]) && HasType(vs[1], ts[1]);
    assert At(r, 0, r);
    hide Encode;
    hide EncodeFields;
    hide At;
    DecodeEncodeFields(vs, ts, r, 0);
  }

  lemma EncodeTwo(vs: seq<Val>, ts: seq<Ty>)
    requires |vs| == |ts| == 2
    ensures EncodeFields(vs, ts) == Encode(vs[0], ts[0]) + Encode(vs[1], ts[1])
  {
    hide Encode;
    assert EncodeFields(vs[1..][1..], ts[1..][1..]) == [];
    assert EncodeFields(vs[1..], ts[1..]) == Encode(vs[1], ts[1]) + [];
  }

  lemma Regroup(a: seq<Byte>, b: seq<Byte>, c: seq<Byte>)
    ensures a + b + c == a + (b + c)
  {
  }

  /** A call that names an unbound function makes the client read past the reply, unless the
      return type occupies no bytes at all. */
  lemma UnboundCallOverruns(handlers: Handlers, name: seq<Byte>, args: seq<Val>, params: seq<Ty>, ret: Ty)
    requires name !in handlers
    requires |Request(name, args, params)| < INT32_LIMIT && |NotFoundReply(name)| < INT32_LIMIT
    ensures Serve(handlers, Request(name, args, params)) == Got(NotFoundReply(name), 0)
    ensures Decode(ResponseType(ret), NotFoundReply(name), 0).Overrun? <==> NeedsBytes(ret)
  {
    UnboundIsAnswered(handlers, name, args, params);
    hide Serve;
    hide Request;
    var reply := NotFoundReply(name);
    var code, msg := Num(RPC_ERR_FUNCTION_NOT_FOUND), Text(NOT_BOUND + name);
    Pow256Values();
    assert At(reply, 0, Encode(code, Scalar(2)) + Encode(msg, Str));
    AtSplit(reply, 0, Encode(code, Scalar(2)), Encode(msg, Str));
    DecodeEncode(code, Scalar(2), reply, 0);
    DecodeEncode(msg, Str, reply, 2);
    DecodeAtEnd(ret, reply);
    var ts := [Scalar(2), Str, ret];
    assert ts[1..] == [Str, ret] && [Str, ret][1..] == [ret] && [ret][1..] == [];
    assert DecodeFields([ret], reply, |reply|).Overrun? <==> NeedsBytes(ret);
    assert DecodeFields([Str, ret], reply, 2).Overrun? <==> NeedsBytes(ret);
  }
}

module Rpc {
  import opened Bytes
  import opened SerializerFormat
  import opened Serializer
  import opened Packet
  import opened RpcFormat

  class RpcServer {
    var handlers: Handlers

    ghost predicate Valid() reads this { forall name :: name in handlers ==> Typed(handlers[name]) }

    constructor ()
      ensures Valid() && handlers == map[]
    {
      handlers := map[];
    }

    /** The key is `name.data()`, the name up to its first NUL. */
    method Bind(name: seq<Byte>, h: Handler)
      requires Valid() && Typed(h)
      modifies this
      ensures Valid() && handlers == old(handlers)[CString(name) := h]
      ensures handlers == old(handlers)[name := h] || !NulFree(name)
    {
      CStringWhole(name);
      handlers := handlers[CString(name) := h];
    }

    /** CallImpl: an unbound name is answered here, a bound one by its proxy. */
    method CallImpl(name: seq<Byte>, input: Serializer) returns (output: Decoded<seq<Byte>>)
      requires Valid()
      modifies input
      ensures output ==
        if name !in handlers then Got(NotFoundReply(name), 0) else
        var args := DecodeFields(handlers[name].params, old(input.buffer), old(input.pos));
        if args.Got? then Got(Reply(handlers[name], args.value), 0) else Overrun
    {
      if name in handlers {
        output := CallProxy(handlers[name], input);
        return;
      }
      var out := new Serializer([]);
      Pow256Values();
      out.Serialize(Num(RPC_ERR_FUNCTION_NOT_FOUND), Scalar(2));
      out.Serialize(Text(NOT_BOUND + name), Str);
      assert out.buffer == NotFoundReply(name);
      output := Got(out.buffer, 0);
    }

    /** CallProxy_: decode the argument tuple, call, encode an RpcResponse. */
    method CallProxy(h: Handler, input: Serializer) returns (output: Decoded<seq<Byte>>)
      requires Typed(h)
      modifies input
      ensures var args := DecodeFields(h.params, old(input.buffer), old(input.pos));
              output == if args.Got? then Got(Reply(h, args.value), 0) else Overrun
    {
      DecodeArgsTyped(h.params, input.buffer, input.pos);
      var args := input.DeserializeFields(h.params);
      if !args.Got? { return Overrun; }
      var res := h.fn(args.value);
      var out := new Serializer([]);
      ResponseHasType(RPC_SUCCESS, [], res, h.ret);
      out.Serialize(Response(RPC_SUCCESS, [], res), ResponseType(h.ret));
      assert out.buffer == Reply(h, args.value);
      output := Got(out.buffer, 0);
    }

    /** SendResponse: with a whole header, the reply's frame is written up to where its body gets. */
    method SendResponse(down: Stream, reply: seq<Byte>) returns (done: bool, whole: bool)
      modifies down
      ensures done && whole && |reply| < UINT32_LIMIT ==> down.wire == old(down.wire) + Frame(reply)
      ensures down.heads == Tail(old(down.heads))
      ensures |reply| < UINT32_LIMIT && MoveWhole(old(down.heads), 1) ==>
        && whole && StartOf(old(down.wire), down.wire, reply) && (done <==> down.wire == old(down.wire) + Frame(reply))
        && down.script == Transfer(old(down.script), |reply|).rest
        && (done <==> Transfer(old(down.script), |reply|).status.Done?)
    {
      hide Frame;
      hide Transfer;
      hide LittleEndian;
      if MoveWhole(down.heads, 1) { WholeHeadsExist(down.heads); }
      hide MoveWhole;
      var status, header, written := AsyncWritePacket(down, reply);
      done, whole := status.Done?, header == HEADER_SIZE;
      if whole && |reply| < UINT32_LIMIT { StartOfFrame(old(down.wire), down.wire, reply, written); }
    }

    /** Read the name off a request and call what is bound to it. */
    method Dispatch(request: seq<Byte>) returns (output: Decoded<seq<Byte>>)
      requires Valid()
      ensures output == Serve(handlers, request)
    {
      var serializer := new Serializer(request);
      var name := serializer.Deserialize(Str);
      if !name.Got? { return Overrun; }
      output := CallImpl(name.value.bytes, serializer);
    }

    /** One round of the OnRequest loop: read a packet, dispatch it, write the reply. `sent` is the
        request the client wrote; the other results say whether the packets moved whole. */
    method OnRequest(up: Stream, down: Stream, stack: seq<Byte>, ghost sent: seq<Byte>)
      returns (got: bool, gotWhole: bool, request: seq<Byte>, done: bool, doneWhole: bool)
      requires Valid() && up != down && |stack| == HEADER_SIZE
      modifies up, down
      ensures got && gotWhole ==> |request| < UINT32_LIMIT && old(up.wire) == Frame(request) + up.wire
      ensures done ==> got && Serve(handlers, request).Got?
      ensures done && doneWhole && |Serve(handlers, request).value| < UINT32_LIMIT ==>
        down.wire == old(down.wire) + Frame(Serve(handlers, request).value)
      ensures |sent| < UINT32_LIMIT && old(up.wire) == Frame(sent) && MoveWhole(old(up.heads), 1) ==>
        && gotWhole && (got <==> Transfer(old(up.script), |sent|).status.Done?)
        && (got ==> request == sent && up.wire == [])
      ensures !(got && Serve(handlers, request).Got?) ==>
        down.wire == old(down.wire) && down.heads == old(down.heads) && down.script == old(down.script)
      ensures got && Serve(handlers, request).Got? ==> down.heads == Tail(old(down.heads))
      ensures got && Serve(handlers, request).Got? && MoveWhole(old(down.heads), 1) ==>
        var reply := Serve(handlers, request).value;
        |reply| < UINT32_LIMIT ==>
          && doneWhole && StartOf(old(down.wire), down.wire, reply)
          && (done <==> down.wire == old(down.wire) + Frame(reply))
          && down.script == Transfer(old(down.script), |reply|).rest
          && (done <==> Transfer(old(down.script), |reply|).status.Done?)
    {
      hide Frame;
      hide Transfer;
      hide MoveWhole;
      hide Serve;
      hide StartOf;
      done, doneWhole := false, false;
      assert Frame(sent) + [] == Frame(sent);
      got, gotWhole, request := ReadSent(up, stack, sent, []);
      if !got { return; }
      var output := Dispatch(request);
      if output.Got? { done, doneWhole := SendResponse(down, output.value); }
    }
  }

  lemma WholeHeadsExist(heads: seq<IoEvent>)
    requires MoveWhole(heads, 1)
    ensures heads != []
  {
  }

  // What a write of a packet has left on the stream: its header and a prefix of the body.
  ghost predicate StartOf(before: seq<Byte>, after: seq<Byte>, p: seq<Byte>) {
    after <= before + Frame(p) && |after| >= |before| + HEADER_SIZE
  }

  lemma StartOfFrame(before: seq<Byte>, after: seq<Byte>, p: seq<Byte>, written: nat)
    requires written <= |p| && after == before + Frame(p)[..HEADER_SIZE + written]
    ensures StartOf(before, after, p) && (written == |p| <==> after == before + Frame(p))
  {
    hide LittleEndian;
    if written == |p| { assert Frame(p)[..HEADER_SIZE + written] == Frame(p); }
    assert after == (before + Frame(p))[..|after|];
  }

  // What is read behind the header of a packet is a prefix of it.
  lemma StartHeader(wire: seq<Byte>, p: seq<Byte>, buffer: seq<Byte>, rest: seq<Byte>)
    requires |p| < UINT32_LIMIT && StartOf([], wire, p) && wire == wire[..HEADER_SIZE] + buffer + rest
    ensures FromLittleEndian(wire[..HEADER_SIZE]) == |p|
    ensures buffer <= p && (buffer == p ==> wire == Frame(p) && rest == [])
  {
    hide LittleEndian;
    hide FromLittleEndian;
    var f := Frame(p);
    assert [] + f == f;
    assert wire[..HEADER_SIZE] == f[..HEADER_SIZE] == (f + [])[..HEADER_SIZE];
    FrameHeader(p, []);
    var end := HEADER_SIZE + |buffer|;
    assert buffer == wire[HEADER_SIZE..end] == f[HEADER_SIZE..end] == p[..|buffer|];
  }

  lemma DecodeArgsTyped(ts: seq<Ty>, buf: seq<Byte>, pos: int)
    ensures var args := DecodeFields(ts, buf, pos); args.Got? ==> HaveTypes(args.value, ts)
  {
    if DecodeFields(ts, buf, pos).Got? { DecodeFieldsHaveTypes(ts, buf, pos); }
  }

  datatype CallResult =
    | Replied(response: Val)
    | RecvTimeout
    | ReadPastReply  // deserialize left the reply buffer
    | SendFailed     // LOG_FATAL
    | Blocked        // the call has not returned

  class BlockingRpcClient {
    var errCode: nat

    constructor ()
      ensures errCode == RPC_SUCCESS
    {
      errCode := RPC_SUCCESS;
    }

    /** WritePacket: the number of body bytes written, -1 when nothing of the header goes out. */
    method WritePacket(s: Stream, buffer: seq<Byte>) returns (status: Status, written: int, header: nat)
      modifies s
      ensures -1 <= written <= |buffer| && header <= HEADER_SIZE && (status.Done? <==> written == |buffer|)
      ensures s.wire == old(s.wire) + LittleEndian(|buffer|, HEADER_SIZE)[..header]
                      + buffer[..if written < 0 then 0 else written]
      ensures status.Done? && header == HEADER_SIZE ==> s.wire == old(s.wire) + Frame(buffer)
      ensures written == -1 <==> header == 0
      ensures written != -1 ==> Flow(status, s.script) == Transfer(old(s.script), |buffer|)
      ensures s.heads == Tail(old(s.heads)) && (MoveWhole(old(s.heads), 1) ==> header == HEADER_SIZE)
    {
      hide LittleEndian;
      hide Transfer;
      if MoveWhole(s.heads, 1) { MoveWholeTail(s.heads, 1); }
      hide MoveWhole;
      var head := LittleEndian(|buffer|, HEADER_SIZE);
      var h := s.WriteSome(head, true);
      if !h.Moved? {
        return if h.Stalled? then Pending else IoError, -1, 0;
      }
      header := h.n;
      status, written := Packet.WriteBody(s, buffer, |buffer|);
      if header == HEADER_SIZE { assert head[..header] == head; }
      if status.Done? { assert buffer[..written] == buffer; }
    }

    /** The header loop of ReadPacket. Every piece goes to the start of head_buffer, so a header that
        arrives in pieces is garbled; `whole` says it came in one. A closed connection is polled on. */
    method ReadHeader(s: Stream, stack: seq<Byte>) returns (status: Status, head: seq<Byte>, whole: bool)
      requires |stack| == HEADER_SIZE
      modifies s
      ensures |head| == HEADER_SIZE && s.script == old(s.script)
      ensures status.Done? || status.IoError? || status.Pending?
      ensures status.Done? ==> HEADER_SIZE <= |old(s.wire)| && s.wire == old(s.wire)[HEADER_SIZE..]
      ensures whole ==> status.Done? && head == old(s.wire)[..HEADER_SIZE]
      ensures MoveWhole(old(s.heads), 1) && HEADER_SIZE <= |old(s.wire)| ==> whole
    {
      var received, moves: nat := 0, 0;
      head, whole := stack, false;
      ghost var certain := MoveWhole(s.heads, 1) && HEADER_SIZE <= |s.wire|;
      if certain { MoveWholeTail(s.heads, 1); }
      hide MoveWhole;
      while received != HEADER_SIZE
        invariant |head| == HEADER_SIZE && 0 <= received <= |old(s.wire)| && s.script == old(s.script)
        invariant s.wire == old(s.wire)[received..]
        invariant moves == 0 ==> received == 0
        invariant moves == 1 ==> received <= HEADER_SIZE && head[..received] == old(s.wire)[..received]
        invariant certain ==> (moves == 0 && s.heads == old(s.heads)) || (moves == 1 && received == HEADER_SIZE)
        decreases |s.heads|
      {
        ghost var before := s.wire;
        var r, data := s.ReadSome(HEADER_SIZE, true);
        match r
        case Moved(n) =>
          assert data == before[..n] && s.wire == before[n..];
          head, received, moves := data + head[n..], received + n, moves + 1;
        case Again =>
        case Eof =>
        case Error => return IoError, head, false;
        case Stalled => return Pending, head, false;
      }
      status, whole := Done, moves == 1;
    }

    /** ReadPacket: the number of body bytes read, -1 when reading the header fails. */
    method ReadPacket(s: Stream, stack: seq<Byte>) returns (status: Status, size: int, whole: bool, buffer: seq<Byte>)
      requires |stack| == HEADER_SIZE
      modifies s
      ensures size == -1 ==> buffer == [] && (status.IoError? || status.Pending?)
      ensures size != -1 ==>
        && size == |buffer| && HEADER_SIZE <= |old(s.wire)|
        && old(s.wire) == old(s.wire)[..HEADER_SIZE] + buffer + s.wire
      ensures whole && status.Done? ==> |buffer| < UINT32_LIMIT && old(s.wire) == Frame(buffer) + s.wire
      ensures whole ==>
        && size != -1 && |buffer| <= FromLittleEndian(old(s.wire)[..HEADER_SIZE])
        && (status.Done? <==> |buffer| == FromLittleEndian(old(s.wire)[..HEADER_SIZE]))
      ensures MoveWhole(old(s.heads), 1) && HEADER_SIZE <= |old(s.wire)| ==>
        var n := FromLittleEndian(old(s.wire)[..HEADER_SIZE]);
        whole && (HEADER_SIZE + n <= |old(s.wire)| ==> Flow(status, s.script) == Transfer(old(s.script), n))
    {
      hide FromLittleEndian;
      hide Transfer;
      hide Frame;
      hide MoveWhole;
      var head;
      status, head, whole := ReadHeader(s, stack);
      if !status.Done? { return status, -1, whole, []; }
      status, buffer := ReadBody(s, FromLittleEndian(head));
      size := |buffer|;
      ghost var front := old(s.wire)[..HEADER_SIZE];
      assert old(s.wire) == front + (buffer + s.wire) == front + buffer + s.wire;
      if whole && status.Done? { FrameOf(head, buffer); }
    }

    /** Call and the first half of NetCall. After a timeout the request is not sent again. */
    method SendRequest(up: Stream, name: seq<Byte>, args: seq<Val>, params: seq<Ty>)
      returns (sent: bool, blocked: bool, whole: bool)
      requires HaveTypes(args, params)
      modifies up
      ensures errCode == RPC_ERR_RECV_TIMEOUT ==>
        sent && whole && up.wire == old(up.wire) && up.heads == old(up.heads) && up.script == old(up.script)
      ensures sent && whole && errCode != RPC_ERR_RECV_TIMEOUT ==>
        up.wire == old(up.wire) + Frame(Request(name, args, params))
      ensures errCode != RPC_ERR_RECV_TIMEOUT && MoveWhole(old(up.heads), 1) ==>
        var f := Transfer(old(up.script), |Request(name, args, params)|);
        && whole && (sent <==> f.status.Done?) && (blocked <==> f.status.Pending?)
        && up.script == f.rest && up.heads == Tail(old(up.heads))
    {
      hide Transfer;
      hide MoveWhole;
      hide LittleEndian;
      hide Frame;
      var serializer := new Serializer([]);
      serializer.Serialize(Text(name), Str);
      serializer.SerializeFields(args, params);
      assert serializer.buffer == Request(name, args, params);
      if errCode == RPC_ERR_RECV_TIMEOUT { return true, false, true; }
      hide Request;
      var status, written, header := WritePacket(up, serializer.buffer);
      sent, blocked, whole := status.Done?, status.Pending?, header == HEADER_SIZE;
    }

    /** The second half of NetCall. A failed header read is `size_t(-1)`, which is neither negative
        nor 0: the code carries on with success and an empty buffer. */
    method ReceiveReply(down: Stream, ret: Ty, stack: seq<Byte>, ghost sent: seq<Byte>)
      returns (r: CallResult, size: int, complete: bool, ghost reply: seq<Byte>)
      requires |stack| == HEADER_SIZE
      modifies this, down
      ensures complete ==> |reply| < UINT32_LIMIT && size == |reply| && old(down.wire) == Frame(reply) + down.wire
      ensures -1 <= size && (complete ==> !r.Blocked?)
      ensures r.Blocked? ==> errCode == old(errCode)
      ensures !r.Blocked? && size == 0 ==> r == RecvTimeout && errCode == RPC_ERR_RECV_TIMEOUT == 2
      ensures !r.Blocked? && size == -1 ==> r == ReadPastReply && errCode == RPC_SUCCESS == 0
      ensures !r.Blocked? && size > 0 ==>
        && errCode == RPC_SUCCESS
        && r == match Decode(ResponseType(ret), reply, 0)
                case Got(v, _) => Replied(v)
                case Overrun => ReadPastReply
      ensures old(down.wire) == [] ==> size == -1 && !complete
      ensures |sent| < UINT32_LIMIT && MoveWhole(old(down.heads), 1) && StartOf([], old(down.wire), sent) ==>
        && reply <= sent && (complete <==> reply == sent)
        && (complete ==> old(down.wire) == Frame(sent) && down.wire == [])
        && (old(down.wire) == Frame(sent) ==> (complete <==> Transfer(old(down.script), |sent|).status.Done?))
    {
      hide Transfer;
      hide MoveWhole;
      hide FromLittleEndian;
      ghost var wire := down.wire;
      var status, whole, buffer;
      status, size, whole, buffer := ReadPacket(down, stack);
      complete, reply := whole && status.Done?, buffer;
      if |sent| < UINT32_LIMIT && size != -1 && StartOf([], wire, sent) {
        StartHeader(wire, sent, buffer, down.wire);
      }
      hide Frame;
      if status.Pending? { return Blocked, size, complete, reply; }
      if size == 0 {
        errCode := RPC_ERR_RECV_TIMEOUT;
        return RecvTimeout, size, complete, reply;
      }
      errCode := RPC_SUCCESS;
      var serializer := new Serializer(buffer);
      if size == -1 { NothingToDecode(ret); }
      var v := serializer.Deserialize(ResponseType(ret));
      r := if v.Got? then Replied(v.value) else ReadPastReply;
    }
  }

  lemma NothingToDecode(ret: Ty)
    ensures Decode(ResponseType(ret), [], 0) == Overrun
  {
    assert NeedsBytes(Scalar(2));
    assert ResponseType(ret).fields[0] == Scalar(2);
    DecodeAtEnd(ResponseType(ret), []);
  }

  // The schedule carries a body of n bytes into the stream and out of it again.
  ghost predicate CarriesTwice(script: seq<IoEvent>, n: nat) { Carry(script, [n, n]).status.Done? }

  lemma CarriesTwiceIs(script: seq<IoEvent>, n: nat)
    ensures var f := Transfer(script, n);
      CarriesTwice(script, n) <==> f.status.Done? && Transfer(f.rest, n).status.Done?
  {
    var f := Transfer(script, n);
    var g := Transfer(f.rest, n);
    assert [n, n][1..] == [n] && [n][1..] == [];
    assert Carry(f.rest, [n]) == if g.status.Done? then Carry(g.rest, []) else g;
  }

  /** Transparency. Over any schedule of short transfers and retries of the bodies in both directions,
      as long as headers move whole: a call of a bound function gets through if and only if the two
      schedules carry the request and the reply. A call that gets through returns err_code 0, an empty
      message and exactly what the handler computes from the caller's arguments, and leaves both
      streams empty; one that does not get through returns no answer at all. */
  method RemoteCall(
    client: BlockingRpcClient, server: RpcServer, up: Stream, down: Stream,
    name: seq<Byte>, args: seq<Val>, stacks: (seq<Byte>, seq<Byte>))
    returns (r: CallResult, through: bool)
    requires server.Valid() && up != down && up.wire == [] && down.wire == []
    requires client.errCode != RPC_ERR_RECV_TIMEOUT && |stacks.0| == |stacks.1| == HEADER_SIZE
    requires name in server.handlers && Callable(server.handlers[name], args)
    requires |Request(name, args, server.handlers[name].params)| < INT32_LIMIT
    requires |Reply(server.handlers[name], args)| < INT32_LIMIT
    modifies client, up, down
    ensures through ==> r == Replied(Response(RPC_SUCCESS, [], server.handlers[name].fn(args)))
    ensures through ==> client.errCode == RPC_SUCCESS && up.wire == [] && down.wire == []
    ensures MoveWhole(old(up.heads), 2) && MoveWhole(old(down.heads), 2) ==>
      (through <==>
        && CarriesTwice(old(up.script), |Request(name, args, server.handlers[name].params)|)
        && CarriesTwice(old(down.script), |Reply(server.handlers[name], args)|))
    ensures MoveWhole(old(up.heads), 2) && MoveWhole(old(down.heads), 2) ==> (r.Replied? <==> through)
  {
    hide Frame;
    hide Serve;
    hide Reply;
    hide Request;
    hide Response;
    hide Transfer;
    hide MoveWhole;
    hide CarriesTwice;
    hide Callable;
    var h := server.handlers[name];
    ghost var request := Request(name, args, h.params);
    ghost var reply := Reply(h, args);
    CarriesTwiceIs(up.script, |request|);
    CarriesTwiceIs(down.script, |reply|);
    ghost var certain := MoveWhole(up.heads, 2) && MoveWhole(down.heads, 2);
    if certain {
      MoveWholeTail(up.heads, 2);
      MoveWholeTail(down.heads, 2);
    }
    CallableHasTypes(h, args);
    var sent, blocked, whole := client.SendRequest(up, name, args, h.params);
    if !(sent && whole) { return if blocked then Blocked else SendFailed, false; }
    assert up.wire == Frame(request);

    var got, gotWhole, received, done, doneWhole := server.OnRequest(up, down, stacks.0, request);
    if got && gotWhole { FrameUnique(request, received, [], up.wire); }
    ServeRequest(server.handlers, name, args);

    ghost var answer;
    var size, complete;
    r, size, complete, answer := client.ReceiveReply(down, h.ret, stacks.1, reply);
    through := complete && done && gotWhole && doneWhole;
    assert [] + Frame(reply) == Frame(reply) == Frame(reply) + [];
    if through {
      FrameUnique(reply, answer, [], down.wire);
      ReadReply(h, args);
      ReplyNotEmpty(h, args);
    } else if certain && answer <= reply && answer != reply {
      CutReplyOverruns(h, args, answer);
    }
  }

  /** No part of a reply passes for a reply. */
  lemma CutReplyOverruns(h: Handler, args: seq<Val>, part: seq<Byte>)
    requires Callable(h, args) && |Reply(h, args)| < INT32_LIMIT && part <= Reply(h, args) && part != Reply(h, args)
    ensures Decode(ResponseType(h.ret), part, 0).Overrun?
  {
    ResponseHasType(RPC_SUCCESS, [], h.fn(args), h.ret);
    assert part[0..] == part;
    DecodeCutOff(Response(RPC_SUCCESS, [], h.fn(args)), ResponseType(h.ret), part, 0);
  }

  lemma CallableHasTypes(h: Handler, args: seq<Val>)
    requires Callable(h, args)
    ensures HaveTypes(args, h.params)
  {
  }

  /** So a call over schedules that are never closed and never fail gets through as soon as enough of
      their outcomes move something, however small the pieces and however many the retries. */
  lemma EnoughOutcomesCarry(script: seq<IoEvent>, n: nat)
    requires Open(script) && 2 * n <= Readies(script)
    ensures CarriesTwice(script, n)
  {
    assert [n, n][1..] == [n] && [n][1..] == [];
    assert Total([n]) == n + Total([]) && Total([n, n]) == n + Total([n]);
    CarryNeeds(script, [n, n]);
  }

  /** And a schedule that does not carry a body closes, fails, or is used up. */
  lemma UncarriedIsExplained(script: seq<IoEvent>, n: nat)
    requires !CarriesTwice(script, n)
    ensures Closed in script || Failed in script || Carry(script, [n, n]).rest == []
  {
    CarryExplained(script, [n, n]);
  }

  lemma ReplyNotEmpty(h: Handler, args: seq<Val>)
    ensures Reply(h, args) != []
  {
    var v, ts := [Num(RPC_SUCCESS), Text([]), h.fn(args)], [Scalar(2), Str, h.ret];
    assert |EncodeFields(v, ts)| >= |Encode(v[0], ts[0])| == 2;
  }
}
