/** The TinyPB frame: length-prefixed, big-endian, with interior offsets computed from decoded
    lengths (luce/codec/tinypb_coder.cpp, luce/net/util.h). */
module TinyPbFormat {
  import opened Bytes
  import opened Slices

  const PB_START: Byte := 2
  const PB_END: Byte := 3
  const ID_BUFFER: nat := 100    // char msg_id[100]
  const TEXT_BUFFER: nat := 512  // char method_name[512], err_info[512]

  // "123456789"
  const DEFAULT_ID: seq<Byte> := [49, 50, 51, 52, 53, 54, 55, 56, 57]

  /** TinyPBProtocol; the int32_t fields hold values in the 32-bit range. */
  datatype Message = Message(
    pkLen: int,
    msgIdLen: int,
    msgId: seq<Byte>,
    methodNameLen: int,
    methodName: seq<Byte>,
    errCode: int,
    errInfoLen: int,
    errInfo: seq<Byte>,
    pbData: seq<Byte>,
    parseSuccess: bool)

  // ---------- htonl / ntohl ----------

  // The bytes of a 32-bit value, most significant first.
  function Reverse4(bs: seq<Byte>): (r: seq<Byte>)
    requires |bs| == 4
    ensures |r| == 4
  {
    [bs[3], bs[2], bs[1], bs[0]]
  }

  function NetBytes(n: int): (bs: seq<Byte>)
    ensures |bs| == 4
  {
    Reverse4(LittleEndian(n % UINT32_LIMIT, 4))
  }

  function FromNetBytes(bs: seq<Byte>): (n: int)
    requires |bs| == 4
    ensures INT32_MIN <= n < INT32_LIMIT
  {
    ToInt32(FromLittleEndian(Reverse4(bs)))
  }

  /** Network order: the highest byte first. */
  lemma NetBytesAreBigEndian(n: int)
    ensures var b, u := NetBytes(n), n % UINT32_LIMIT;
      && b == [u / 0x100_0000, u / 0x1_0000 % 256, u / 0x100 % 256, u % 256]
      && Unsigned(b[0], b[1], b[2], b[3]) == u
  {
    var u := n % UINT32_LIMIT;
    NetBytesList(n);
    hide NetBytes;
    DigitsOf(u);
  }

  lemma NetBytesList(n: int)
    ensures var u := n % UINT32_LIMIT;
      NetBytes(n) == [u / 0x100_0000, u / 0x1_0000 % 256, u / 0x100 % 256, u % 256]
  {
    var u := n % UINT32_LIMIT;
    LittleEndianImages(u);
    hide LittleEndian;
    TopDigit(u);
  }

  function Unsigned(a: int, b: int, c: int, d: int): int { a * 0x100_0000 + b * 0x1_0000 + c * 0x100 + d }

  lemma DigitsOf(u: nat)
    ensures Unsigned(u / 0x100_0000, u / 0x1_0000 % 256, u / 0x100 % 256, u % 256) == u
  {
    var a, b, c := u / 0x100, u / 0x1_0000, u / 0x100_0000;
    assert u == 256 * a + u % 256;
    assert a / 256 == b && a == 256 * b + a % 256;
    assert b / 256 == c && b == 256 * c + b % 256;
  }

  /** Read as an unsigned number with the highest byte first, then as a signed one. */
  lemma FromNetBytesIsBigEndian(b: seq<Byte>)
    requires |b| == 4
    ensures var u := Unsigned(b[0], b[1], b[2], b[3]);
      FromNetBytes(b) == if u < INT32_LIMIT then u else u - UINT32_LIMIT
  {
    hide NetBytes;
    hide FromNetBytes;
    hide Unsigned;
    var n := FromNetBytes(b);
    assert NetBytes(n) == b by { FromNetBytesInverse(b); }
    assert Unsigned(b[0], b[1], b[2], b[3]) == n % UINT32_LIMIT by { NetBytesAreBigEndian(n); }
  }

  lemma NetBytesInverse(n: int)
    requires INT32_MIN <= n < INT32_LIMIT
    ensures FromNetBytes(NetBytes(n)) == n
  {
    hide LittleEndian;
    hide FromLittleEndian;
    Pow256Values();
    var u := LittleEndian(n % UINT32_LIMIT, 4);
    assert Reverse4(Reverse4(u)) == u;
    LittleEndianInverse(n % UINT32_LIMIT, 4);
  }

  lemma FromNetBytesInverse(bs: seq<Byte>)
    requires |bs| == 4
    ensures NetBytes(FromNetBytes(bs)) == bs
  {
    hide LittleEndian;
    hide FromLittleEndian;
    Pow256Values();
    var x := FromLittleEndian(Reverse4(bs));
    assert ToInt32(x) % UINT32_LIMIT == x;
    FromLittleEndianInverse(Reverse4(bs));
    assert Reverse4(Reverse4(bs)) == bs;
  }

  // ---------- Encoding ----------

  function IdOf(m: Message): seq<Byte> { if m.msgId == [] then DEFAULT_ID else m.msgId }

  function PkLen(m: Message): nat { 26 + |IdOf(m)| + |m.methodName| + |m.errInfo| + |m.pbData| }

  function Frame(m: Message): (bs: seq<Byte>)
    ensures |bs| == PkLen(m)
  {
    [PB_START] + (NetBytes(PkLen(m)) + IdPart(PartsOf(m)))
  }

  /** The five variable parts of a frame. */
  datatype Parts = Parts(id: seq<Byte>, name: seq<Byte>, code: int, info: seq<Byte>, data: seq<Byte>)

  function PartsOf(m: Message): Parts { Parts(IdOf(m), m.methodName, m.errCode, m.errInfo, m.pbData) }

  // The rest of a frame from each length field on; the check sum is written as 1.
  function IdPart(p: Parts): (r: seq<Byte>)
    ensures |r| == 21 + |p.id| + |p.name| + |p.info| + |p.data|
  {
    NetBytes(|p.id|) + (p.id + NamePart(p))
  }

  function NamePart(p: Parts): (r: seq<Byte>)
    ensures |r| == 17 + |p.name| + |p.info| + |p.data|
  {
    NetBytes(|p.name|) + (p.name + CodePart(p))
  }

  function CodePart(p: Parts): (r: seq<Byte>)
    ensures |r| == 13 + |p.info| + |p.data|
  {
    NetBytes(p.code) + (NetBytes(|p.info|) + (p.info + DataPart(p)))
  }

  function DataPart(p: Parts): (r: seq<Byte>)
    ensures |r| == |p.data| + 5
  {
    p.data + (NetBytes(1) + [PB_END])
  }

  /** What EncodeTinyPB leaves in the message. */
  function Stamped(m: Message): Message {
    m.(pkLen := PkLen(m), msgIdLen := |IdOf(m)|, msgId := IdOf(m), methodNameLen := |m.methodName|,
       errInfoLen := |m.errInfo|, parseSuccess := true)
  }

  // ---------- Decoding ----------

  /** Rejected: logged, no message. Overrun: a read or copy leaves its buffer (undefined in C++), or
      the negative length makes the string constructor throw. */
  datatype Result<+T> = Ok(value: T) | Rejected | Overrun

  function ReadInt(b: seq<Byte>, i: nat): Result<int> {
    if i + 4 <= |b| then Ok(FromNetBytes(b[i..i + 4])) else Overrun
  }

  /** memcpy of len bytes into a zeroed array, then std::string from it. */
  function ReadText(b: seq<Byte>, i: nat, len: int, size: nat): (r: Result<seq<Byte>>)
    ensures r.Ok? ==> 0 <= len <= size && i + len <= |b| && r.value == CString(b[i..i + len])
  {
    if len < 0 || len > size || i + len > |b| then Overrun
    else
      var text := CString(b[i..i + len]);
      if |text| == size then Overrun else Ok(text)
  }

  function Decode(b: seq<Byte>): Result<Message> {
    if |b| == 0 || b[0] != PB_START then Rejected else
    var pk := ReadInt(b, 1);
    if !pk.Ok? then Overrun else
    var end := pk.value - 1;
    if |b| - 1 != end || b[end] != PB_END then Rejected else
    if 5 >= end then Rejected else
    DecodeId(b, end, pk.value)
  }

  function DecodeId(b: seq<Byte>, end: int, pk: int): Result<Message> {
    var n := ReadInt(b, 5);
    if !n.Ok? then Overrun else
    var id := ReadText(b, 9, n.value, ID_BUFFER);
    if !id.Ok? then Overrun else
    var next := 9 + n.value;
    if next >= end then Rejected else
    DecodeName(b, end, next, Message(pk, n.value, id.value, 0, [], 0, 0, [], [], false))
  }

  function DecodeName(b: seq<Byte>, end: int, i: nat, m: Message): Result<Message> {
    var n := ReadInt(b, i);
    if !n.Ok? then Overrun else
    var name := ReadText(b, i + 4, n.value, TEXT_BUFFER);
    if !name.Ok? then Overrun else
    var next := i + 4 + n.value;
    if next >= end then Rejected else
    DecodeError(b, end, next, m.(methodNameLen := n.value, methodName := name.value))
  }

  function DecodeError(b: seq<Byte>, end: int, i: nat, m: Message): Result<Message> {
    var code := ReadInt(b, i);
    if !code.Ok? then Overrun else
    if i + 4 >= end then Rejected else
    var n := ReadInt(b, i + 4);
    if !n.Ok? then Overrun else
    var info := ReadText(b, i + 8, n.value, TEXT_BUFFER);
    if !info.Ok? then Overrun else
    DecodeData(b, i + 8 + n.value, m.(errCode := code.value, errInfoLen := n.value, errInfo := info.value))
  }

  function DecodeData(b: seq<Byte>, i: nat, m: Message): Result<Message> {
    var len := m.pkLen - m.methodNameLen - m.msgIdLen - m.errInfoLen - 2 - 24;
    if len < 0 || i + len > |b| then Overrun
    else Ok(m.(pbData := b[i..i + len], parseSuccess := true))
  }

  // ---------- The layout of a frame ----------

  // Each offset depends on the lengths before it.
  function NameAt(p: Parts): nat { 9 + |p.id| }

  function CodeAt(p: Parts): nat { NameAt(p) + 4 + |p.name| }

  function DataAt(p: Parts): nat { CodeAt(p) + 8 + |p.info| }

  function Size(p: Parts): nat { DataAt(p) + |p.data| + 5 }

  ghost predicate Layout(b: seq<Byte>, p: Parts) {
    && |b| == Size(p) && b[0] == PB_START && b[|b| - 1] == PB_END
    && At(b, 1, NetBytes(|b|))
    && At(b, 5, NetBytes(|p.id|)) && At(b, 9, p.id)
    && At(b, NameAt(p), NetBytes(|p.name|)) && At(b, NameAt(p) + 4, p.name)
    && At(b, CodeAt(p), NetBytes(p.code))
    && At(b, CodeAt(p) + 4, NetBytes(|p.info|)) && At(b, CodeAt(p) + 8, p.info)
    && At(b, DataAt(p), p.data)
  }

  lemma IdLayout(b: seq<Byte>, p: Parts)
    requires At(b, 5, IdPart(p))
    ensures At(b, 5, NetBytes(|p.id|)) && At(b, 9, p.id) && At(b, NameAt(p), NamePart(p))
  {
    hide At;
    hide NetBytes;
    hide NamePart;
    AtSplit(b, 5, NetBytes(|p.id|), p.id + NamePart(p));
    AtSplit(b, 9, p.id, NamePart(p));
  }

  lemma NameLayout(b: seq<Byte>, p: Parts)
    requires At(b, NameAt(p), NamePart(p))
    ensures At(b, NameAt(p), NetBytes(|p.name|)) && At(b, NameAt(p) + 4, p.name) && At(b, CodeAt(p), CodePart(p))
  {
    hide At;
    hide NetBytes;
    hide CodePart;
    AtSplit(b, NameAt(p), NetBytes(|p.name|), p.name + CodePart(p));
    AtSplit(b, NameAt(p) + 4, p.name, CodePart(p));
  }

  lemma CodeLayout(b: seq<Byte>, p: Parts)
    requires At(b, CodeAt(p), CodePart(p))
    ensures At(b, CodeAt(p), NetBytes(p.code)) && At(b, CodeAt(p) + 4, NetBytes(|p.info|))
    ensures At(b, CodeAt(p) + 8, p.info) && At(b, DataAt(p), DataPart(p))
  {
    hide At;
    hide NetBytes;
    hide DataPart;
    AtSplit(b, CodeAt(p), NetBytes(p.code), NetBytes(|p.info|) + (p.info + DataPart(p)));
    AtSplit(b, CodeAt(p) + 4, NetBytes(|p.info|), p.info + DataPart(p));
    AtSplit(b, CodeAt(p) + 8, p.info, DataPart(p));
  }

  lemma DataLayout(b: seq<Byte>, p: Parts)
    requires At(b, DataAt(p), DataPart(p)) && |b| == Size(p)
    ensures At(b, DataAt(p), p.data) && b[|b| - 1] == PB_END && At(b, DataAt(p) + |p.data|, NetBytes(1))
  {
    hide At;
    hide NetBytes;
    AtSplit(b, DataAt(p), p.data, NetBytes(1) + [PB_END]);
    AtSplit(b, DataAt(p) + |p.data|, NetBytes(1), [PB_END]);
    AtIndex(b, Size(p) - 1, [PB_END], 0);
  }

  lemma FrameLayout(m: Message)
    ensures Layout(Frame(m), PartsOf(m))
    ensures At(Frame(m), PkLen(m) - 5, NetBytes(1))
  {
    hide At;
    hide NetBytes;
    hide IdPart;
    var b, p := Frame(m), PartsOf(m);
    SliceAt(b, 0, |b|);
    assert b[0..|b|] == b;
    AtSplit(b, 0, [PB_START], NetBytes(PkLen(m)) + IdPart(p));
    AtSplit(b, 1, NetBytes(PkLen(m)), IdPart(p));
    AtIndex(b, 0, [PB_START], 0);
    IdLayout(b, p);
    NameLayout(b, p);
    CodeLayout(b, p);
    DataLayout(b, p);
  }

  /** What is turned away before any field is read: no start byte, too short for a length, a length
      other than that of the input, no end byte, nothing in between. */
  lemma EarlyRejections(b: seq<Byte>)
    ensures |b| == 0 || b[0] != 2 ==> Decode(b) == Rejected
    ensures |b| > 0 && b[0] == 2 && |b| < 5 ==> Decode(b) == Overrun
    ensures 5 <= |b| < INT32_LIMIT && b[0] == 2 ==>
      Unsigned(b[1], b[2], b[3], b[4]) != |b| || b[|b| - 1] != 3 || |b| <= 6 ==> Decode(b) == Rejected
  {
    hide DecodeId;
    if |b| >= 5 {
      FromNetBytesIsBigEndian(b[1..5]);
      hide FromNetBytes;
      hide Unsigned;
    }
  }

  // Four bytes, the highest first.
  function BigEndian(n: int): seq<Byte> {
    var u := n % UINT32_LIMIT;
    [u / 0x100_0000, u / 0x1_0000 % 256, u / 0x100 % 256, u % 256]
  }

  /** The frame of the given size from front to back. */
  function Written(p: Parts, size: nat): seq<Byte> {
    [2] + BigEndian(size)
    + BigEndian(|p.id|) + p.id
    + BigEndian(|p.name|) + p.name
    + BigEndian(p.code)
    + BigEndian(|p.info|) + p.info
    + p.data + [0, 0, 0, 1] + [3]
  }

  lemma FrameBytes(m: Message)
    ensures var id := if m.msgId == [] then [49, 50, 51, 52, 53, 54, 55, 56, 57] else m.msgId;
      var size := 26 + |id| + |m.methodName| + |m.errInfo| + |m.pbData|;
      Frame(m) == Written(Parts(id, m.methodName, m.errCode, m.errInfo, m.pbData), size)
  {
    hide Written;
    hide NetBytes;
    hide IdPart;
    WrittenFlat(PartsOf(m), PkLen(m));
  }

  lemma WrittenFlat(p: Parts, size: nat)
    ensures [PB_START] + (NetBytes(size) + IdPart(p)) == Written(p, size)
  {
    hide NetBytes;
    assert NetBytes(1) == [0, 0, 0, 1] by { NetIsBig(1); }
    hide BigEndian;
    hide IdPart;
    NetIsBig(size);
    NetIsBig(|p.id|);
    NetIsBig(|p.name|);
    NetIsBig(p.code);
    NetIsBig(|p.info|);
    Flatten(BigEndian(size), p);
  }

  lemma NetIsBig(n: int)
    ensures NetBytes(n) == BigEndian(n)
  {
    NetBytesAreBigEndian(n);
    hide NetBytes;
  }

  lemma Flatten(size: seq<Byte>, p: Parts)
    requires NetBytes(1) == [0, 0, 0, 1]
    ensures [PB_START] + (size + IdPart(p)) ==
      [2] + size + NetBytes(|p.id|) + p.id + NetBytes(|p.name|) + p.name
      + NetBytes(p.code) + NetBytes(|p.info|) + p.info + p.data + [0, 0, 0, 1] + [3]
  {
    hide NetBytes;
    var a, b, c, d := NetBytes(|p.id|), NetBytes(|p.name|), NetBytes(p.code), NetBytes(|p.info|);
    var tail := p.data + ([0, 0, 0, 1] + [3]);
    assert DataPart(p) == tail;
    var t3 := c + (d + (p.info + tail));
    assert CodePart(p) == t3;
    var t2 := b + (p.name + t3);
    assert NamePart(p) == t2;
    assert IdPart(p) == a + (p.id + t2);
    hide IdPart;
    hide NamePart;
    hide CodePart;
    hide DataPart;
    var l := [2] + size + a + p.id;
    assert [2] + (size + (a + (p.id + t2))) == l + t2;
    var l2 := l + b + p.name;
    assert l + (b + (p.name + t3)) == l2 + t3;
    assert l2 + (c + (d + (p.info + tail))) == l2 + c + d + p.info + tail;
  }

  // ---------- Decode after Encode ----------

  lemma ReadIntAt(b: seq<Byte>, i: nat, n: int)
    requires INT32_MIN <= n < INT32_LIMIT && At(b, i, NetBytes(n))
    ensures ReadInt(b, i) == Ok(n)
  {
    AtSlice(b, i, NetBytes(n));
    NetBytesInverse(n);
  }

  // The copy stays in its buffer and the string in it is terminated.
  predicate Terminated(w: seq<Byte>, size: nat) { |w| <= size && |CString(w)| < size }

  // The copied text comes back whole.
  ghost predicate Fits(w: seq<Byte>, size: nat) { |w| < size && NulFree(w) }

  lemma ReadTextAt(b: seq<Byte>, i: nat, w: seq<Byte>, size: nat)
    requires At(b, i, w)
    ensures ReadText(b, i, |w|, size) == if Terminated(w, size) then Ok(CString(w)) else Overrun
  {
    AtSlice(b, i, w);
  }

  ghost predicate AllTerminated(p: Parts) {
    Terminated(p.id, ID_BUFFER) && Terminated(p.name, TEXT_BUFFER) && Terminated(p.info, TEXT_BUFFER)
  }

  function MessageOf(p: Parts): Message {
    Message(Size(p), |p.id|, CString(p.id), |p.name|, CString(p.name), p.code, |p.info|, CString(p.info), p.data, true)
  }

  /** Any frame of this layout decodes to its parts, with each text cut at its first NUL, or a copy
      overruns a buffer. */
  lemma DecodeLayout(b: seq<Byte>, p: Parts)
    requires Layout(b, p) && Size(p) < INT32_LIMIT && INT32_MIN <= p.code < INT32_LIMIT
    ensures Decode(b) == if AllTerminated(p) then Ok(MessageOf(p)) else Overrun
  {
    hide At;
    hide NetBytes;
    hide ReadInt;
    hide ReadText;
    hide CString;
    ReadIntAt(b, 1, |b|);
    ReadIntAt(b, 5, |p.id|);
    ReadTextAt(b, 9, p.id, ID_BUFFER);
    ReadIntAt(b, NameAt(p), |p.name|);
    ReadTextAt(b, NameAt(p) + 4, p.name, TEXT_BUFFER);
    ReadIntAt(b, CodeAt(p), p.code);
    ReadIntAt(b, CodeAt(p) + 4, |p.info|);
    ReadTextAt(b, CodeAt(p) + 8, p.info, TEXT_BUFFER);
    AtSlice(b, DataAt(p), p.data);
  }

  ghost predicate Encodable(m: Message) {
    PkLen(m) < INT32_LIMIT && INT32_MIN <= m.errCode < INT32_LIMIT
  }

  /** Encoding then decoding restores the stamped message exactly when msg_id is NUL-free and under
      100 bytes, method_name and err_info NUL-free and under 512. */
  lemma RoundTripExactly(m: Message)
    requires Encodable(m)
    ensures Decode(Frame(m)) == Ok(Stamped(m)) <==>
      Fits(IdOf(m), 100) && Fits(m.methodName, 512) && Fits(m.errInfo, 512)
    ensures var id := if m.msgId == [] then [49, 50, 51, 52, 53, 54, 55, 56, 57] else m.msgId;
      var size := 26 + |id| + |m.methodName| + |m.errInfo| + |m.pbData|;
      Stamped(m) ==
        Message(size, |id|, id, |m.methodName|, m.methodName, m.errCode, |m.errInfo|, m.errInfo, m.pbData, true)
  {
    hide Decode;
    hide Frame;
    hide Layout;
    hide CString;
    FrameLayout(m);
    DecodeLayout(Frame(m), PartsOf(m));
    CStringWhole(IdOf(m));
    CStringWhole(m.methodName);
    CStringWhole(m.errInfo);
  }

  // ---------- Encode after Decode ----------

  /** The parts an accepted frame was cut into, before the texts were cut at a NUL. */
  ghost function RawParts(b: seq<Byte>, m: Message): Parts
    requires 0 <= m.msgIdLen && 0 <= m.methodNameLen && 0 <= m.errInfoLen
    requires 21 + m.msgIdLen + m.methodNameLen + m.errInfoLen <= |b|
  {
    var i := 9 + m.msgIdLen;
    var j := i + 4 + m.methodNameLen;
    Parts(b[9..i], b[i + 4..j], m.errCode, b[j + 8..j + 8 + m.errInfoLen], m.pbData)
  }

  lemma ReadIntGives(b: seq<Byte>, i: nat)
    requires ReadInt(b, i).Ok?
    ensures At(b, i, NetBytes(ReadInt(b, i).value)) && INT32_MIN <= ReadInt(b, i).value < INT32_LIMIT
  {
    FromNetBytesInverse(b[i..i + 4]);
  }

  // What the last stage has read when it succeeds.
  lemma ErrorGives(b: seq<Byte>, end: int, i: nat, m0: Message, m: Message)
    requires DecodeError(b, end, i, m0) == Ok(m)
    ensures m0.msgId == m.msgId && m0.msgIdLen == m.msgIdLen && m0.pkLen == m.pkLen
    ensures m0.methodName == m.methodName && m0.methodNameLen == m.methodNameLen
    ensures At(b, i, NetBytes(m.errCode)) && At(b, i + 4, NetBytes(m.errInfoLen))
    ensures INT32_MIN <= m.errCode < INT32_LIMIT
    ensures 0 <= m.errInfoLen && i + 8 + m.errInfoLen <= |b| && m.errInfo == CString(b[i + 8..i + 8 + m.errInfoLen])
    ensures m.pkLen == 26 + m.msgIdLen + m.methodNameLen + m.errInfoLen + |m.pbData|
    ensures At(b, i + 8 + m.errInfoLen, m.pbData) && m.parseSuccess
  {
    hide NetBytes;
    hide CString;
    ReadIntGives(b, i);
    ReadIntGives(b, i + 4);
    hide ReadInt;
  }

  lemma NameGives(b: seq<Byte>, end: int, i: nat, m0: Message, m: Message) returns (m1: Message)
    requires DecodeName(b, end, i, m0) == Ok(m)
    ensures m0.msgId == m.msgId && m0.msgIdLen == m.msgIdLen && m0.pkLen == m.pkLen
    ensures At(b, i, NetBytes(m.methodNameLen)) && 0 <= m.methodNameLen && i + 4 + m.methodNameLen <= |b|
    ensures m.methodName == CString(b[i + 4..i + 4 + m.methodNameLen])
    ensures DecodeError(b, end, i + 4 + m.methodNameLen, m1) == Ok(m)
  {
    hide NetBytes;
    hide CString;
    hide DecodeError;
    ReadIntGives(b, i);
    var n := ReadInt(b, i).value;
    m1 := m0.(methodNameLen := n, methodName := CString(b[i + 4..i + 4 + n]));
    ErrorGives(b, end, i + 4 + n, m1, m);
  }

  lemma IdGives(b: seq<Byte>, m: Message) returns (m0: Message)
    requires Decode(b) == Ok(m)
    ensures 5 < |b| - 1 && b[0] == PB_START && b[|b| - 1] == PB_END
    ensures |b| == m0.pkLen < INT32_LIMIT && At(b, 1, NetBytes(|b|))
    ensures At(b, 5, NetBytes(m0.msgIdLen)) && 0 <= m0.msgIdLen && 9 + m0.msgIdLen <= |b|
    ensures m0.msgId == CString(b[9..9 + m0.msgIdLen])
    ensures DecodeName(b, |b| - 1, 9 + m0.msgIdLen, m0) == Ok(m)
  {
    hide NetBytes;
    hide CString;
    hide DecodeName;
    ReadIntGives(b, 1);
    ReadIntGives(b, 5);
    var n := ReadInt(b, 5).value;
    m0 := Message(|b|, n, CString(b[9..9 + n]), 0, [], 0, 0, [], [], false);
  }

  lemma SliceAt(b: seq<Byte>, i: nat, j: nat)
    requires i <= j <= |b|
    ensures At(b, i, b[i..j])
  {
  }

  /** Decode accepts only frames of this layout. */
  lemma AcceptedLayout(b: seq<Byte>, m: Message)
    requires Decode(b) == Ok(m)
    ensures 0 <= m.msgIdLen && 0 <= m.methodNameLen && 0 <= m.errInfoLen
    ensures |b| == 26 + m.msgIdLen + m.methodNameLen + m.errInfoLen + |m.pbData| < INT32_LIMIT
    ensures Layout(b, RawParts(b, m)) && m == MessageOf(RawParts(b, m)) && INT32_MIN <= m.errCode < INT32_LIMIT
  {
    hide Decode;
    hide NetBytes;
    hide CString;
    hide DecodeName;
    hide DecodeError;
    hide At;
    var end := |b| - 1;
    var m0 := IdGives(b, m);
    var i := 9 + m0.msgIdLen;
    var m1 := NameGives(b, end, i, m0, m);
    var j := i + 4 + m.methodNameLen;
    ErrorGives(b, end, j, m1, m);
    SliceAt(b, 9, i);
    SliceAt(b, i + 4, j);
    SliceAt(b, j + 8, j + 8 + m.errInfoLen);
  }

  /** b with its four check-sum bytes as the encoder writes them. */
  function WithCheckSum(b: seq<Byte>): (r: seq<Byte>)
    requires |b| >= 5
    ensures |r| == |b|
  {
    b[..|b| - 5] + (NetBytes(1) + [PB_END])
  }

  // Two texts that agree up to i and hold the same part there agree up to its end.
  lemma Agree(b: seq<Byte>, c: seq<Byte>, i: nat, w: seq<Byte>)
    requires At(b, i, w) && At(c, i, w) && b[..i] == c[..i]
    ensures b[..i + |w|] == c[..i + |w|]
  {
    assert b[..i + |w|] == b[..i] + b[i..i + |w|];
    assert c[..i + |w|] == c[..i] + c[i..i + |w|];
  }

  lemma LayoutDetermines(b: seq<Byte>, c: seq<Byte>, p: Parts)
    requires Layout(b, p) && Layout(c, p)
    ensures b[..|b| - 5] == c[..|b| - 5]
  {
    assert b[..1] == c[..1];
    hide At;
    hide NetBytes;
    Agree(b, c, 1, NetBytes(|b|));
    Agree(b, c, 5, NetBytes(|p.id|));
    Agree(b, c, 9, p.id);
    Agree(b, c, NameAt(p), NetBytes(|p.name|));
    Agree(b, c, NameAt(p) + 4, p.name);
    Agree(b, c, CodeAt(p), NetBytes(p.code));
    Agree(b, c, CodeAt(p) + 4, NetBytes(|p.info|));
    Agree(b, c, CodeAt(p) + 8, p.info);
    Agree(b, c, DataAt(p), p.data);
  }

  // No text was cut short, and the id is not one the encoder would replace.
  ghost predicate Consistent(m: Message) {
    && m.msgId != [] && |m.msgId| == m.msgIdLen
    && |m.methodName| == m.methodNameLen && |m.errInfo| == m.errInfoLen
  }

  lemma ConsistentParts(b: seq<Byte>, m: Message)
    requires Decode(b) == Ok(m) && Consistent(m)
    ensures 0 <= m.msgIdLen && 0 <= m.methodNameLen && 0 <= m.errInfoLen
    ensures |b| == 26 + m.msgIdLen + m.methodNameLen + m.errInfoLen + |m.pbData|
    ensures RawParts(b, m) == PartsOf(m)
  {
    hide Decode;
    hide Layout;
    hide CString;
    AcceptedLayout(b, m);
    var p := RawParts(b, m);
    CStringWhole(p.id);
    CStringWhole(p.name);
    CStringWhole(p.info);
  }

  // The same field at the same place in texts that agree so far.
  lemma SameField(b: seq<Byte>, c: seq<Byte>, i: nat, n: nat, k: nat)
    requires n < INT32_LIMIT && k < INT32_LIMIT && |b| == |c| && i + 4 <= |b| - 5 && b[..|b| - 5] == c[..|b| - 5]
    requires At(b, i, NetBytes(n)) && At(c, i, NetBytes(k))
    ensures n == k
  {
    assert b[..|b| - 5][i..i + 4] == b[i..i + 4];
    assert c[..|b| - 5][i..i + 4] == c[i..i + 4];
    NetBytesInverse(n);
    NetBytesInverse(k);
  }

  lemma SameText(b: seq<Byte>, c: seq<Byte>, i: nat, v: seq<Byte>, w: seq<Byte>)
    requires |v| == |w| && |b| == |c| && i + |v| <= |b| - 5 && b[..|b| - 5] == c[..|b| - 5]
    requires At(b, i, v) && At(c, i, w)
    ensures v == w
  {
    assert b[..|b| - 5][i..i + |v|] == b[i..i + |v|];
    assert c[..|b| - 5][i..i + |v|] == c[i..i + |v|];
  }

  lemma DefaultIdIsWhole()
    ensures CString(DEFAULT_ID) == DEFAULT_ID
  {
    hide CString;
    CStringWhole(DEFAULT_ID);
  }

  lemma RestoredIsConsistent(b: seq<Byte>, m: Message)
    requires Decode(b) == Ok(m) && |b| >= 5 && Frame(m) == WithCheckSum(b)
    ensures Consistent(m)
  {
    hide Decode;
    hide CString;
    hide At;
    hide NetBytes;
    AcceptedLayout(b, m);
    FrameLayout(m);
    var c, p, q := Frame(m), RawParts(b, m), PartsOf(m);
    assert b[..|b| - 5] == c[..|b| - 5];
    hide Frame;
    hide WithCheckSum;
    SameField(b, c, 5, |p.id|, |q.id|);
    SameText(b, c, 9, p.id, q.id);
    DefaultIdIsWhole();
    SameField(b, c, NameAt(p), |p.name|, |q.name|);
    SameField(b, c, CodeAt(p) + 4, |p.info|, |q.info|);
  }

  // The texts as they stand in the frame.
  ghost predicate WholeTexts(p: Parts) { p.id != [] && NulFree(p.id) && NulFree(p.name) && NulFree(p.info) }

  lemma ConsistentExactly(b: seq<Byte>, m: Message)
    requires Decode(b) == Ok(m)
    ensures 0 <= m.msgIdLen && 0 <= m.methodNameLen && 0 <= m.errInfoLen
    ensures |b| == 26 + m.msgIdLen + m.methodNameLen + m.errInfoLen + |m.pbData|
    ensures Consistent(m) <==> WholeTexts(RawParts(b, m))
  {
    hide Decode;
    hide Layout;
    hide CString;
    hide NulFree;
    AcceptedLayout(b, m);
    var p := RawParts(b, m);
    CStringWhole(p.id);
    CStringWhole(p.name);
    CStringWhole(p.info);
  }

  /** Decoding then encoding restores an accepted frame, check sum apart, exactly when no text in the
      frame holds a NUL and its msg_id is not empty; the decoded message shows it by its lengths. */
  lemma FrameRestoredExactly(b: seq<Byte>, m: Message)
    requires Decode(b) == Ok(m)
    ensures |b| >= 5
    ensures Frame(m) == WithCheckSum(b) <==> Consistent(m)
    ensures 0 <= m.msgIdLen && 0 <= m.methodNameLen && 0 <= m.errInfoLen
    ensures |b| == 26 + m.msgIdLen + m.methodNameLen + m.errInfoLen + |m.pbData|
    ensures Frame(m) == WithCheckSum(b) <==> WholeTexts(RawParts(b, m))
  {
    ConsistentExactly(b, m);
    hide WholeTexts;
    AcceptedLayout(b, m);
    if Consistent(m) {
      ConsistentParts(b, m);
      FrameLayout(m);
      LayoutDetermines(b, Frame(m), PartsOf(m));
      TailOfFrame(m);
    } else if Frame(m) == WithCheckSum(b) {
      RestoredIsConsistent(b, m);
    }
  }

  lemma TailOfFrame(m: Message)
    ensures Frame(m) == Frame(m)[..PkLen(m) - 5] + (NetBytes(1) + [PB_END])
  {
    hide Frame;
    hide NetBytes;
    var b := Frame(m);
    assert At(b, |b| - 5, NetBytes(1)) && b[|b| - 1] == PB_END by { FrameLayout(m); }
    AtSlice(b, |b| - 5, NetBytes(1));
    assert b == b[..|b| - 5] + (b[|b| - 5..|b| - 1] + [b[|b| - 1]]);
  }
}

/** TinyPBCoder over the message object and a raw buffer with a moving write pointer. */
module TinyPbCoder {
  import opened Bytes
  import opened TinyPbFormat

  class TinyPBProtocol {
    var pkLen: int
    var msgIdLen: int
    var msgId: seq<Byte>
    var methodNameLen: int
    var methodName: seq<Byte>
    var errCode: int
    var errInfoLen: int
    var errInfo: seq<Byte>
    var pbData: seq<Byte>
    var parseSuccess: bool

    constructor ()
      ensures View() == Message(0, 0, [], 0, [], 0, 0, [], [], false)
    {
      pkLen, msgIdLen, methodNameLen, errCode, errInfoLen := 0, 0, 0, 0, 0;
      msgId, methodName, errInfo, pbData := [], [], [], [];
      parseSuccess := false;
    }

    ghost function View(): Message
      reads this
    {
      Message(pkLen, msgIdLen, msgId, methodNameLen, methodName, errCode, errInfoLen, errInfo, pbData, parseSuccess)
    }
  }

  /** memcpy at the write pointer, which then moves on. */
  method Put(buf: array<Byte>, tmp: nat, src: seq<Byte>) returns (next: nat)
    requires tmp + |src| <= buf.Length
    modifies buf
    ensures next == tmp + |src| && buf[..next] == old(buf[..tmp]) + src
  {
    var i := 0;
    while i < |src|
      invariant 0 <= i <= |src| && buf[..tmp + i] == old(buf[..tmp]) + src[..i]
    {
      buf[tmp + i] := src[i];
      i := i + 1;
    }
    next := tmp + i;
  }

  // What has been written and what is still to come make up the frame.
  lemma Regroup(a: seq<Byte>, w: seq<Byte>, rest: seq<Byte>)
    ensures a + (w + rest) == (a + w) + rest
  {
  }

  // BadArrayLength: `new char[]` throws. HeapOverrun: the frame is written past its buffer.
  datatype Encoding = Complete | BadArrayLength | HeapOverrun

  /** pk_len is an `int`: from 2^31 bytes on it is negative, or small again from 2^32 on. */
  function EncodingOf(size: nat): Encoding {
    if ToInt32(size) < 0 then BadArrayLength else if ToInt32(size) < size then HeapOverrun else Complete
  }

  lemma CompleteExactly(size: nat)
    ensures EncodingOf(size).Complete? <==> size < INT32_LIMIT
  {
  }

  method EncodeTinyPB(message: TinyPBProtocol) returns (encoding: Encoding, buf: array<Byte>)
    modifies message
    ensures fresh(buf) && encoding == EncodingOf(PkLen(old(message.View())))
    ensures encoding.Complete? ==> buf[..] == Frame(old(message.View()))
    ensures message.View() ==
      if encoding.Complete? then Stamped(old(message.View()))
      else old(message.View()).(msgId := IdOf(old(message.View())))
  {
    hide NetBytes;
    hide IdPart;
    if message.msgId == [] { message.msgId := DEFAULT_ID; }
    var size := 2 + 24 + |message.msgId| + |message.methodName| + |message.errInfo| + |message.pbData|;
    encoding := EncodingOf(size);
    if !encoding.Complete? {
      buf := new Byte[0];
      return;
    }
    buf := WriteFrame(size,
      Parts(message.msgId, message.methodName, message.errCode, message.errInfo, message.pbData));
    message.pkLen := size;
    message.msgIdLen := |message.msgId|;
    message.methodNameLen := |message.methodName|;
    message.errInfoLen := |message.errInfo|;
    message.parseSuccess := true;
  }

  /** Fill a new buffer of pk_len bytes from front to back. */
  method WriteFrame(pkLen: nat, p: Parts) returns (buf: array<Byte>)
    requires pkLen == Size(p)
    ensures fresh(buf) && buf[..] == [PB_START] + (NetBytes(pkLen) + IdPart(p))
  {
    hide NetBytes;
    hide IdPart;
    hide NamePart;
    hide CodePart;
    hide DataPart;
    buf := new Byte[pkLen];
    var tmp := Put(buf, 0, [PB_START]);
    assert buf[..tmp] == [PB_START];
    tmp := PutHead(buf, tmp, pkLen, p.id, p);
    tmp := PutName(buf, tmp, p.name, p);
    tmp := PutError(buf, tmp, p.code, p.info, p);
    tmp := PutTail(buf, tmp, p.data, p);
    assert buf[..tmp] == buf[..];
  }

  method PutHead(buf: array<Byte>, tmp: nat, pkLen: int, id: seq<Byte>, ghost p: Parts) returns (next: nat)
    requires tmp + 8 + |id| <= buf.Length && id == p.id
    modifies buf
    ensures next == tmp + 8 + |id|
    ensures buf[..next] + NamePart(p) == old(buf[..tmp]) + (NetBytes(pkLen) + IdPart(p))
  {
    hide NetBytes;
    hide NamePart;
    ghost var a := buf[..tmp];
    next := Put(buf, tmp, NetBytes(pkLen));
    ghost var b := buf[..next];
    Regroup(a, NetBytes(pkLen), IdPart(p));
    next := Put(buf, next, NetBytes(|id|));
    Regroup(b, NetBytes(|id|), id + NamePart(p));
    ghost var c := buf[..next];
    next := Put(buf, next, id);
    Regroup(c, id, NamePart(p));
  }

  method PutName(buf: array<Byte>, tmp: nat, name: seq<Byte>, ghost p: Parts) returns (next: nat)
    requires tmp + 4 + |name| <= buf.Length && name == p.name
    modifies buf
    ensures next == tmp + 4 + |name|
    ensures buf[..next] + CodePart(p) == old(buf[..tmp]) + NamePart(p)
  {
    hide NetBytes;
    hide CodePart;
    ghost var a := buf[..tmp];
    next := Put(buf, tmp, NetBytes(|name|));
    Regroup(a, NetBytes(|name|), name + CodePart(p));
    ghost var b := buf[..next];
    next := Put(buf, next, name);
    Regroup(b, name, CodePart(p));
  }

  method PutError(buf: array<Byte>, tmp: nat, code: int, info: seq<Byte>, ghost p: Parts) returns (next: nat)
    requires tmp + 8 + |info| <= buf.Length && code == p.code && info == p.info
    modifies buf
    ensures next == tmp + 8 + |info|
    ensures buf[..next] + DataPart(p) == old(buf[..tmp]) + CodePart(p)
  {
    hide NetBytes;
    hide DataPart;
    ghost var a := buf[..tmp];
    next := Put(buf, tmp, NetBytes(code));
    Regroup(a, NetBytes(code), NetBytes(|info|) + (info + DataPart(p)));
    ghost var b := buf[..next];
    next := Put(buf, next, NetBytes(|info|));
    Regroup(b, NetBytes(|info|), info + DataPart(p));
    ghost var c := buf[..next];
    next := Put(buf, next, info);
    Regroup(c, info, DataPart(p));
  }

  /** pb_data, the check sum 1, and the end byte. */
  method PutTail(buf: array<Byte>, tmp: nat, data: seq<Byte>, ghost p: Parts) returns (next: nat)
    requires tmp + |data| + 5 <= buf.Length && data == p.data
    modifies buf
    ensures next == tmp + |data| + 5
    ensures buf[..next] == old(buf[..tmp]) + DataPart(p)
  {
    hide NetBytes;
    ghost var a := buf[..tmp];
    next := Put(buf, tmp, data);
    Regroup(a, data, NetBytes(1) + [PB_END]);
    ghost var b := buf[..next];
    next := Put(buf, next, NetBytes(1));
    Regroup(b, NetBytes(1), [PB_END]);
    next := Put(buf, next, [PB_END]);
  }

  /** Encode appends the frame to the output buffer byte by byte. */
  method Encode(message: TinyPBProtocol, out: seq<Byte>) returns (encoding: Encoding, result: seq<Byte>)
    modifies message
    ensures encoding.Complete? <==> PkLen(old(message.View())) < INT32_LIMIT
    ensures encoding.Complete? ==>
      result == out + Frame(old(message.View())) && message.View() == Stamped(old(message.View()))
    ensures !encoding.Complete? ==> result == out
  {
    hide TinyPbFormat.Frame;
    CompleteExactly(PkLen(message.View()));
    var buf;
    encoding, buf := EncodeTinyPB(message);
    result := out;
    if !encoding.Complete? { return; }
    var i := 0;
    while i < buf.Length
      invariant 0 <= i <= buf.Length && result == out + buf[..i]
    {
      result := result + [buf[i]];
      i := i + 1;
    }
    assert buf[..i] == buf[..];
  }

  /** Decode fills a fresh message field by field; it is handed over only on success. */
  method Decode(b: seq<Byte>) returns (status: Result<()>, message: TinyPBProtocol)
    ensures fresh(message)
    ensures match TinyPbFormat.Decode(b)
            case Ok(m) => status.Ok? && message.View() == m
            case Rejected => status == Rejected
            case Overrun => status == Overrun
  {
    hide DecodeId;
    message := new TinyPBProtocol();
    if |b| == 0 || b[0] != PB_START { return Rejected, message; }
    var pk := ReadInt(b, 1);
    if !pk.Ok? { return Overrun, message; }
    var end := pk.value - 1;
    if |b| - 1 != end || b[end] != PB_END { return Rejected, message; }
    message.pkLen := pk.value;
    if 5 >= end { return Rejected, message; }
    status := DecodeTexts(b, end, message);
  }

  /** The middle of Decode: msg_id and method_name. */
  method DecodeTexts(b: seq<Byte>, end: int, message: TinyPBProtocol) returns (status: Result<()>)
    requires message.View() == Message(message.pkLen, 0, [], 0, [], 0, 0, [], [], false)
    modifies message
    ensures match DecodeId(b, end, old(message.pkLen))
            case Ok(m) => status.Ok? && message.View() == m
            case Rejected => status == Rejected
            case Overrun => status == Overrun
  {
    hide ReadInt;
    hide ReadText;
    hide DecodeError;
    var idLen := ReadInt(b, 5);
    if !idLen.Ok? { return Overrun; }
    message.msgIdLen := idLen.value;
    var id := ReadText(b, 9, idLen.value, ID_BUFFER);
    if !id.Ok? { return Overrun; }
    message.msgId := id.value;
    var nameAt := 9 + idLen.value;
    if nameAt >= end { return Rejected; }
    var nameLen := ReadInt(b, nameAt);
    if !nameLen.Ok? { return Overrun; }
    message.methodNameLen := nameLen.value;
    var name := ReadText(b, nameAt + 4, nameLen.value, TEXT_BUFFER);
    if !name.Ok? { return Overrun; }
    message.methodName := name.value;
    var codeAt := nameAt + 4 + nameLen.value;
    if codeAt >= end { return Rejected; }
    status := FinishDecode(b, end, codeAt, message);
  }

  /** The rest of Decode, from err_code on. */
  method FinishDecode(b: seq<Byte>, end: int, codeAt: nat, message: TinyPBProtocol) returns (status: Result<()>)
    modifies message
    ensures match DecodeError(b, end, codeAt, old(message.View()))
            case Ok(m) => status.Ok? && message.View() == m
            case Rejected => status == Rejected
            case Overrun => status == Overrun
  {
    hide NetBytes;
    hide FromNetBytes;
    hide CString;
    var code := ReadInt(b, codeAt);
    if !code.Ok? { return Overrun; }
    message.errCode := code.value;
    if codeAt + 4 >= end { return Rejected; }
    var infoLen := ReadInt(b, codeAt + 4);
    if !infoLen.Ok? { return Overrun; }
    message.errInfoLen := infoLen.value;
    var info := ReadText(b, codeAt + 8, infoLen.value, TEXT_BUFFER);
    if !info.Ok? { return Overrun; }
    message.errInfo := info.value;
    var dataLen := message.pkLen - message.methodNameLen - message.msgIdLen - message.errInfoLen - 2 - 24;
    var dataAt := codeAt + 8 + infoLen.value;
    if dataLen < 0 || dataAt + dataLen > |b| { return Overrun; }
    message.pbData := b[dataAt..dataAt + dataLen];
    message.parseSuccess := true;
    status := Ok(());
  }
}
