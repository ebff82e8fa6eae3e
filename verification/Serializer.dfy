/** The type-directed binary format of codec::Serializer.

    `Ty` is the C++ static type that selects an overload; `Product` covers std::tuple and a user
    record whose serialize/deserialize visit its members in order. An arithmetic value is
    represented by its bit pattern, an integer below 256^width.
  */
module SerializerFormat {
  import opened Bytes
  import opened Slices

  datatype Ty =
    | Scalar(width: nat)
    | Str
    | SeqOf(elem: Ty)
    | Product(fields: seq<Ty>)

  datatype Val =
    | Num(n: nat)
    | Text(bytes: seq<Byte>)
    | Items(items: seq<Val>)
    | Fields(fields: seq<Val>)

  ghost predicate HasType(v: Val, ty: Ty) {
    match (v, ty)
    case (Num(n), Scalar(w)) => n < Pow256(w)
    case (Text(_), Str) => true
    case (Items(vs), SeqOf(e)) => forall i :: 0 <= i < |vs| ==> HasType(vs[i], e)
    case (Fields(vs), Product(ts)) => HaveTypes(vs, ts)
    case _ => false
  }

  ghost predicate HaveTypes(vs: seq<Val>, ts: seq<Ty>) {
    |vs| == |ts| && forall i :: 0 <= i < |vs| ==> HasType(vs[i], ts[i])
  }

  /** Every sequence length survives the uint32_t it is written as. */
  ghost predicate Fits(v: Val) {
    match v
    case Items(vs) => |vs| < UINT32_LIMIT && forall i :: 0 <= i < |vs| ==> Fits(vs[i])
    case Fields(vs) => forall i :: 0 <= i < |vs| ==> Fits(vs[i])
    case _ => true
  }

  // ---------- Writing ----------

  function Encode(v: Val, ty: Ty): (bs: seq<Byte>)
    decreases v, 0
  {
    match (v, ty)
    case (Num(n), Scalar(w)) => LittleEndian(n, w)
    case (Text(bytes), Str) => LittleEndian(|bytes|, 8) + bytes
    case (Items(vs), SeqOf(e)) => LittleEndian(|vs|, 4) + EncodeItems(vs, e)
    case (Fields(vs), Product(ts)) => EncodeFields(vs, ts)
    case _ => []  // no overload
  }

  function EncodeItems(vs: seq<Val>, e: Ty): seq<Byte>
    decreases vs, 0
  {
    if vs == [] then [] else Encode(vs[0], e) + EncodeItems(vs[1..], e)
  }

  function EncodeFields(vs: seq<Val>, ts: seq<Ty>): seq<Byte>
    decreases vs, 0
  {
    if vs == [] || ts == [] then [] else Encode(vs[0], ts[0]) + EncodeFields(vs[1..], ts[1..])
  }

  // ---------- Reading ----------

  // Overrun: std::copy leaves the buffer. The C++ has no check there, so nothing follows it.
  datatype Decoded<+T> = Got(value: T, next: int) | Overrun

  /** std::copy of n bytes at the cursor; the `int` cursor then advances modulo 2^32. */
  function Take(buf: seq<Byte>, pos: int, n: nat): (r: Decoded<seq<Byte>>)
    ensures r.Got? ==> |r.value| == n
  {
    if 0 <= pos && pos + n <= |buf| then Got(buf[pos..pos + n], ToInt32(pos + n)) else Overrun
  }

  function TakeNum(buf: seq<Byte>, pos: int, w: nat): (r: Decoded<nat>) {
    var t := Take(buf, pos, w);
    if t.Got? then Got(FromLittleEndian(t.value), t.next) else Overrun
  }

  function Decode(ty: Ty, buf: seq<Byte>, pos: int): (r: Decoded<Val>)
    decreases ty, 0
  {
    match ty
    case Scalar(w) =>
      var n := TakeNum(buf, pos, w);
      if n.Got? then Got(Num(n.value), n.next) else Overrun
    case Str =>
      var n := TakeNum(buf, pos, 8);
      if !n.Got? then Overrun else
      var t := Take(buf, n.next, n.value);
      if t.Got? then Got(Text(t.value), t.next) else Overrun
    case SeqOf(e) =>
      var n := TakeNum(buf, pos, 4);
      if !n.Got? then Overrun else
      var vs := DecodeItems(e, n.value, buf, n.next);
      if vs.Got? then Got(Items(vs.value), vs.next) else Overrun
    case Product(ts) =>
      var vs := DecodeFields(ts, buf, pos);
      if vs.Got? then Got(Fields(vs.value), vs.next) else Overrun
  }

  function DecodeItems(e: Ty, count: nat, buf: seq<Byte>, pos: int): (r: Decoded<seq<Val>>)
    ensures r.Got? ==> |r.value| == count
    decreases e, count + 1
  {
    if count == 0 then Got([], pos) else
    var v := Decode(e, buf, pos);
    if !v.Got? then Overrun else
    var vs := DecodeItems(e, count - 1, buf, v.next);
    if vs.Got? then Got([v.value] + vs.value, vs.next) else Overrun
  }

  function DecodeFields(ts: seq<Ty>, buf: seq<Byte>, pos: int): (r: Decoded<seq<Val>>)
    ensures r.Got? ==> |r.value| == |ts|
    decreases ts, 0
  {
    if ts == [] then Got([], pos) else
    var v := Decode(ts[0], buf, pos);
    if !v.Got? then Overrun else
    var vs := DecodeFields(ts[1..], buf, v.next);
    if vs.Got? then Got([v.value] + vs.value, vs.next) else Overrun
  }

  // ---------- Reading what was written ----------

  lemma TakeAt(buf: seq<Byte>, pos: nat, w: seq<Byte>)
    requires pos + |w| < INT32_LIMIT && At(buf, pos, w)
    ensures Take(buf, pos, |w|) == Got(w, pos + |w|)
  {
  }

  lemma TakeNumAt(buf: seq<Byte>, pos: nat, n: nat, w: nat)
    requires pos + w < INT32_LIMIT && At(buf, pos, LittleEndian(n, w))
    ensures TakeNum(buf, pos, w).Got? && TakeNum(buf, pos, w).next == pos + w
    ensures n < Pow256(w) ==> TakeNum(buf, pos, w).value == n
  {
    TakeAt(buf, pos, LittleEndian(n, w));
    if n < Pow256(w) { LittleEndianInverse(n, w); }
  }

  /** Self-delimiting inverse: wherever the encoding of v stands within the first 2^31 bytes of a
      buffer, reading at that place gives back v and stops right behind it. */
  lemma {:induction false} DecodeEncode(v: Val, ty: Ty, buf: seq<Byte>, pos: nat)
    requires HasType(v, ty) && Fits(v) && At(buf, pos, Encode(v, ty)) && pos + |Encode(v, ty)| < INT32_LIMIT
    ensures Decode(ty, buf, pos) == Got(v, pos + |Encode(v, ty)|)
    decreases v, 1
  {
    hide At;
    hide Take;
    hide TakeNum;
    hide LittleEndian;
    match (v, ty)
    case (Num(n), Scalar(w)) => TakeNumAt(buf, pos, n, w);
    case (Text(bytes), Str) =>
      AtSplit(buf, pos, LittleEndian(|bytes|, 8), bytes);
      Pow256Values();
      TakeNumAt(buf, pos, |bytes|, 8);
      TakeAt(buf, pos + 8, bytes);
    case (Items(vs), SeqOf(e)) =>
      AtSplit(buf, pos, LittleEndian(|vs|, 4), EncodeItems(vs, e));
      Pow256Values();
      TakeNumAt(buf, pos, |vs|, 4);
      DecodeEncodeItems(vs, e, buf, pos + 4);
    case (Fields(vs), Product(ts)) =>
      DecodeEncodeFields(vs, ts, buf, pos);
  }

  lemma {:induction false} DecodeEncodeItems(vs: seq<Val>, e: Ty, buf: seq<Byte>, pos: nat)
    requires forall i :: 0 <= i < |vs| ==> HasType(vs[i], e) && Fits(vs[i])
    requires At(buf, pos, EncodeItems(vs, e)) && pos + |EncodeItems(vs, e)| < INT32_LIMIT
    ensures DecodeItems(e, |vs|, buf, pos) == Got(vs, pos + |EncodeItems(vs, e)|)
    decreases vs, 0
  {
    hide At;
    hide HasType;
    hide Fits;
    hide Decode;
    hide Encode;
    if vs != [] {
      var a, b := Encode(vs[0], e), EncodeItems(vs[1..], e);
      AtSplit(buf, pos, a, b);
      DecodeEncode(vs[0], e, buf, pos);
      DecodeEncodeItems(vs[1..], e, buf, pos + |a|);
      assert [vs[0]] + vs[1..] == vs;
    }
  }

  lemma {:induction false} DecodeEncodeFields(vs: seq<Val>, ts: seq<Ty>, buf: seq<Byte>, pos: nat)
    requires HaveTypes(vs, ts) && (forall i :: 0 <= i < |vs| ==> Fits(vs[i]))
    requires At(buf, pos, EncodeFields(vs, ts)) && pos + |EncodeFields(vs, ts)| < INT32_LIMIT
    ensures DecodeFields(ts, buf, pos) == Got(vs, pos + |EncodeFields(vs, ts)|)
    decreases vs, 0
  {
    hide At;
    hide HasType;
    hide Fits;
    hide Decode;
    hide Encode;
    if vs != [] {
      var a, b := Encode(vs[0], ts[0]), EncodeFields(vs[1..], ts[1..]);
      AtSplit(buf, pos, a, b);
      DecodeEncode(vs[0], ts[0], buf, pos);
      DecodeEncodeFields(vs[1..], ts[1..], buf, pos + |a|);
      assert [vs[0]] + vs[1..] == vs;
    }
  }

  /** Whatever bytes are read, the value has the type it was read at. */
  lemma {:induction false} DecodeHasType(ty: Ty, buf: seq<Byte>, pos: int)
    requires Decode(ty, buf, pos).Got?
    ensures HasType(Decode(ty, buf, pos).value, ty)
    decreases ty, 0
  {
    match ty
    case SeqOf(e) =>
      var n := TakeNum(buf, pos, 4);
      DecodeItemsHaveType(e, n.value, buf, n.next);
    case Product(ts) => DecodeFieldsHaveTypes(ts, buf, pos);
    case _ =>
  }

  lemma {:induction false} DecodeItemsHaveType(e: Ty, count: nat, buf: seq<Byte>, pos: int)
    requires DecodeItems(e, count, buf, pos).Got?
    ensures forall i :: 0 <= i < count ==> HasType(DecodeItems(e, count, buf, pos).value[i], e)
    decreases e, count + 1
  {
    if count > 0 {
      DecodeHasType(e, buf, pos);
      DecodeItemsHaveType(e, count - 1, buf, Decode(e, buf, pos).next);
    }
  }

  lemma {:induction false} DecodeFieldsHaveTypes(ts: seq<Ty>, buf: seq<Byte>, pos: int)
    requires DecodeFields(ts, buf, pos).Got?
    ensures HaveTypes(DecodeFields(ts, buf, pos).value, ts)
    decreases ts, 0
  {
    if ts != [] {
      DecodeHasType(ts[0], buf, pos);
      DecodeFieldsHaveTypes(ts[1..], buf, Decode(ts[0], buf, pos).next);
    }
  }

  // ---------- The bytes on the wire ----------

  /** How many bytes a value occupies: a string has a size_t in front of it, a sequence a uint32_t. */
  ghost function SizeOf(v: Val, ty: Ty): nat
    requires HasType(v, ty)
    decreases v, 0
  {
    match (v, ty)
    case (Num(_), Scalar(w)) => w
    case (Text(bytes), Str) => 8 + |bytes|
    case (Items(vs), SeqOf(e)) => 4 + SizeOfAll(vs, seq(|vs|, _ => e))
    case (Fields(vs), Product(ts)) => SizeOfAll(vs, ts)
  }

  ghost function SizeOfAll(vs: seq<Val>, ts: seq<Ty>): nat
    requires HaveTypes(vs, ts)
    decreases vs, 0
  {
    if vs == [] then 0 else SizeOf(vs[0], ts[0]) + SizeOfAll(vs[1..], ts[1..])
  }

  lemma {:induction false} EncodeSize(v: Val, ty: Ty)
    requires HasType(v, ty)
    ensures |Encode(v, ty)| == SizeOf(v, ty)
    decreases v, 1
  {
    match (v, ty)
    case (Items(vs), SeqOf(e)) => EncodeItemsSize(vs, e);
    case (Fields(vs), Product(ts)) => EncodeFieldsSize(vs, ts);
    case _ =>
  }

  lemma {:induction false} EncodeItemsSize(vs: seq<Val>, e: Ty)
    requires forall i :: 0 <= i < |vs| ==> HasType(vs[i], e)
    ensures |EncodeItems(vs, e)| == SizeOfAll(vs, seq(|vs|, _ => e))
    decreases vs, 0
  {
    if vs != [] {
      EncodeSize(vs[0], e);
      EncodeItemsSize(vs[1..], e);
      assert seq(|vs|, _ => e)[1..] == seq(|vs[1..]|, _ => e);
    }
  }

  lemma {:induction false} EncodeFieldsSize(vs: seq<Val>, ts: seq<Ty>)
    requires HaveTypes(vs, ts)
    ensures |EncodeFields(vs, ts)| == SizeOfAll(vs, ts)
    decreases vs, 0
  {
    if vs != [] {
      EncodeSize(vs[0], ts[0]);
      EncodeFieldsSize(vs[1..], ts[1..]);
    }
  }

  /** What stands where: a scalar's bytes lowest first, a length in front of the contents, elements and
      members one after the other in order. */
  lemma WireLayout(v: Val, ty: Ty, k: nat)
    requires HasType(v, ty)
    ensures v.Num? && k < ty.width ==> Encode(v, ty)[k] == ShiftBytes(v.n, k) % 256
    ensures v.Text? ==> Encode(v, ty)[8..] == v.bytes && (k < 8 ==> Encode(v, ty)[k] == ShiftBytes(|v.bytes|, k) % 256)
    ensures v.Items? && k < 4 ==> Encode(v, ty)[k] == ShiftBytes(|v.items|, k) % 256
    ensures v.Items? && k < |v.items| ==>
      At(Encode(v, ty), 4 + |EncodeItems(v.items[..k], ty.elem)|, Encode(v.items[k], ty.elem))
    ensures v.Fields? && k < |v.fields| == |ty.fields| ==>
      At(Encode(v, ty), |EncodeFields(v.fields[..k], ty.fields[..k])|, Encode(v.fields[k], ty.fields[k]))
  {
    hide LittleEndian;
    hide At;
    match (v, ty)
    case (Num(n), Scalar(w)) => if k < w { LittleEndianByte(n, w, k); }
    case (Text(bytes), Str) => if k < 8 { LittleEndianByte(|bytes|, 8, k); }
    case (Items(vs), SeqOf(e)) =>
      if k < 4 { LittleEndianByte(|vs|, 4, k); }
      if k < |vs| { ItemAt(LittleEndian(|vs|, 4), vs, e, k); }
    case (Fields(vs), Product(ts)) =>
      if k < |vs| { FieldAt(vs, ts, k); }
  }

  lemma {:induction false} ItemAt(before: seq<Byte>, vs: seq<Val>, e: Ty, k: nat)
    requires k < |vs|
    ensures At(before + EncodeItems(vs, e), |before| + |EncodeItems(vs[..k], e)|, Encode(vs[k], e))
    decreases k
  {
    var a, b := Encode(vs[0], e), EncodeItems(vs[1..], e);
    assert before + (a + b) == before + a + b;
    if k > 0 {
      ItemAt(before + a, vs[1..], e, k - 1);
      assert vs[..k][1..] == vs[1..][..k - 1];
    } else {
      assert (before + (a + b))[|before|..|before| + |a|] == a;
    }
  }

  lemma FieldAt(vs: seq<Val>, ts: seq<Ty>, k: nat)
    requires |vs| == |ts| && k < |vs|
    ensures At(EncodeFields(vs, ts), |EncodeFields(vs[..k], ts[..k])|, Encode(vs[k], ts[k]))
  {
    FieldBehind([], vs, ts, k);
    assert [] + EncodeFields(vs, ts) == EncodeFields(vs, ts);
  }

  lemma {:induction false} FieldBehind(before: seq<Byte>, vs: seq<Val>, ts: seq<Ty>, k: nat)
    requires |vs| == |ts| && k < |vs|
    ensures At(before + EncodeFields(vs, ts), |before| + |EncodeFields(vs[..k], ts[..k])|, Encode(vs[k], ts[k]))
    decreases k
  {
    var a, b := Encode(vs[0], ts[0]), EncodeFields(vs[1..], ts[1..]);
    assert before + (a + b) == before + a + b;
    if k > 0 {
      FieldBehind(before + a, vs[1..], ts[1..], k - 1);
      assert vs[..k][1..] == vs[1..][..k - 1] && ts[..k][1..] == ts[1..][..k - 1];
    } else {
      assert (before + (a + b))[|before|..|before| + |a|] == a;
    }
  }

  // ---------- What can be read at all ----------

  predicate InCursorRange(pos: int) { INT32_MIN <= pos < INT32_LIMIT }

  /** Whatever bytes are read, at whatever position: every sequence in the value is shorter than
      2^32, and the `int` cursor stays in its range. */
  lemma {:induction false} DecodeFits(ty: Ty, buf: seq<Byte>, pos: int)
    requires Decode(ty, buf, pos).Got?
    ensures Fits(Decode(ty, buf, pos).value)
    ensures InCursorRange(pos) ==> InCursorRange(Decode(ty, buf, pos).next)
    decreases ty, 0
  {
    match ty
    case SeqOf(e) =>
      Pow256Values();
      var n := TakeNum(buf, pos, 4);
      DecodeItemsFit(e, n.value, buf, n.next);
    case Product(ts) => DecodeFieldsFit(ts, buf, pos);
    case _ =>
  }

  lemma {:induction false} DecodeItemsFit(e: Ty, count: nat, buf: seq<Byte>, pos: int)
    requires DecodeItems(e, count, buf, pos).Got?
    ensures forall i :: 0 <= i < count ==> Fits(DecodeItems(e, count, buf, pos).value[i])
    ensures InCursorRange(pos) ==> InCursorRange(DecodeItems(e, count, buf, pos).next)
    decreases e, count + 1
  {
    if count > 0 {
      DecodeFits(e, buf, pos);
      DecodeItemsFit(e, count - 1, buf, Decode(e, buf, pos).next);
    }
  }

  lemma {:induction false} DecodeFieldsFit(ts: seq<Ty>, buf: seq<Byte>, pos: int)
    requires DecodeFields(ts, buf, pos).Got?
    ensures forall i :: 0 <= i < |ts| ==> Fits(DecodeFields(ts, buf, pos).value[i])
    ensures InCursorRange(pos) ==> InCursorRange(DecodeFields(ts, buf, pos).next)
    decreases ts, 0
  {
    if ts != [] {
      DecodeFits(ts[0], buf, pos);
      DecodeFieldsFit(ts[1..], buf, Decode(ts[0], buf, pos).next);
    }
  }

  /** For every value of every type and every suffix, of any size: deserialize(serialize(v) + suffix)
      gives back v and advances the cursor by the encoded length if and only if every count fits
      uint32_t and that length fits the `int` cursor. */
  lemma RoundTripExactly(v: Val, ty: Ty, suffix: seq<Byte>)
    requires HasType(v, ty)
    ensures Decode(ty, Encode(v, ty) + suffix, 0) == Got(v, |Encode(v, ty)|)
            <==> Fits(v) && |Encode(v, ty)| < INT32_LIMIT
  {
    var buf := Encode(v, ty) + suffix;
    assert At(buf, 0, Encode(v, ty));
    if Fits(v) && |Encode(v, ty)| < INT32_LIMIT {
      DecodeEncode(v, ty, buf, 0);
    } else if Decode(ty, buf, 0).Got? {
      DecodeFits(ty, buf, 0);
    }
  }

  /** No encoding is a proper prefix of another: adjacent values cannot run together. */
  lemma PrefixFree(v: Val, w: Val, ty: Ty, s: seq<Byte>, t: seq<Byte>)
    requires HasType(v, ty) && HasType(w, ty) && Fits(v) && Fits(w)
    requires Encode(v, ty) + s == Encode(w, ty) + t
    requires |Encode(v, ty)| < INT32_LIMIT && |Encode(w, ty)| < INT32_LIMIT
    ensures v == w && s == t
  {
    RoundTripExactly(v, ty, s);
    RoundTripExactly(w, ty, t);
    assert (Encode(v, ty) + s)[|Encode(v, ty)|..] == s;
    assert (Encode(w, ty) + t)[|Encode(w, ty)|..] == t;
  }

  // ---------- Reading what was cut short ----------

  // The buffer ends inside the encoding that stands at pos.
  ghost predicate CutOff(buf: seq<Byte>, pos: nat, enc: seq<Byte>) {
    pos <= |buf| < pos + |enc| && buf[pos..] <= enc
  }

  lemma CutSplit(buf: seq<Byte>, pos: nat, a: seq<Byte>, b: seq<Byte>)
    requires CutOff(buf, pos, a + b)
    ensures CutOff(buf, pos, a) || (At(buf, pos, a) && CutOff(buf, pos + |a|, b))
  {
    var rest := buf[pos..];
    if |rest| < |a| {
      assert rest <= a;
    } else {
      assert rest[..|a|] == a && buf[pos..pos + |a|] == rest[..|a|];
      assert buf[pos + |a|..] == rest[|a|..] <= b;
    }
  }

  lemma CutTake(buf: seq<Byte>, pos: nat, w: seq<Byte>)
    requires CutOff(buf, pos, w)
    ensures Take(buf, pos, |w|).Overrun? && TakeNum(buf, pos, |w|).Overrun?
  {
  }

  /** Reading a value whose encoding is cut short overruns the buffer: no proper prefix of an encoding
      is mistaken for another value. */
  lemma {:induction false} DecodeCutOff(v: Val, ty: Ty, buf: seq<Byte>, pos: nat)
    requires HasType(v, ty) && Fits(v) && CutOff(buf, pos, Encode(v, ty)) && pos + |Encode(v, ty)| < INT32_LIMIT
    ensures Decode(ty, buf, pos).Overrun?
    decreases v, 1
  {
    hide At;
    hide CutOff;
    hide Take;
    hide TakeNum;
    hide LittleEndian;
    match (v, ty)
    case (Num(n), Scalar(w)) => CutTake(buf, pos, LittleEndian(n, w));
    case (Text(bytes), Str) => CutText(bytes, buf, pos);
    case (Items(vs), SeqOf(e)) =>
      var head := LittleEndian(|vs|, 4);
      CutSplit(buf, pos, head, EncodeItems(vs, e));
      Pow256Values();
      if CutOff(buf, pos, head) {
        CutTake(buf, pos, head);
      } else {
        TakeNumAt(buf, pos, |vs|, 4);
        DecodeItemsCutOff(vs, e, buf, pos + 4);
      }
    case (Fields(vs), Product(ts)) =>
      DecodeFieldsCutOff(vs, ts, buf, pos);
  }

  lemma CutText(bytes: seq<Byte>, buf: seq<Byte>, pos: nat)
    requires CutOff(buf, pos, Encode(Text(bytes), Str)) && pos + 8 + |bytes| < INT32_LIMIT
    ensures Decode(Str, buf, pos).Overrun?
  {
    hide At;
    hide CutOff;
    hide Take;
    hide TakeNum;
    hide LittleEndian;
    var head := LittleEndian(|bytes|, 8);
    CutSplit(buf, pos, head, bytes);
    Pow256Values();
    if CutOff(buf, pos, head) {
      CutTake(buf, pos, head);
    } else {
      TakeNumAt(buf, pos, |bytes|, 8);
      CutTake(buf, pos + 8, bytes);
    }
  }

  lemma {:induction false} DecodeItemsCutOff(vs: seq<Val>, e: Ty, buf: seq<Byte>, pos: nat)
    requires forall i :: 0 <= i < |vs| ==> HasType(vs[i], e) && Fits(vs[i])
    requires CutOff(buf, pos, EncodeItems(vs, e)) && pos + |EncodeItems(vs, e)| < INT32_LIMIT
    ensures DecodeItems(e, |vs|, buf, pos).Overrun?
    decreases vs, 0
  {
    assert vs != [];
    hide At;
    hide CutOff;
    var a, b := Encode(vs[0], e), EncodeItems(vs[1..], e);
    CutSplit(buf, pos, a, b);
    if CutOff(buf, pos, a) {
      DecodeCutOff(vs[0], e, buf, pos);
    } else {
      DecodeEncode(vs[0], e, buf, pos);
      DecodeItemsCutOff(vs[1..], e, buf, pos + |a|);
    }
  }

  lemma {:induction false} DecodeFieldsCutOff(vs: seq<Val>, ts: seq<Ty>, buf: seq<Byte>, pos: nat)
    requires HaveTypes(vs, ts) && (forall i :: 0 <= i < |vs| ==> Fits(vs[i]))
    requires CutOff(buf, pos, EncodeFields(vs, ts)) && pos + |EncodeFields(vs, ts)| < INT32_LIMIT
    ensures DecodeFields(ts, buf, pos).Overrun?
    decreases vs, 0
  {
    assert vs != [];
    hide At;
    hide CutOff;
    var a, b := Encode(vs[0], ts[0]), EncodeFields(vs[1..], ts[1..]);
    CutSplit(buf, pos, a, b);
    if CutOff(buf, pos, a) {
      DecodeCutOff(vs[0], ts[0], buf, pos);
    } else {
      DecodeEncode(vs[0], ts[0], buf, pos);
      DecodeFieldsCutOff(vs[1..], ts[1..], buf, pos + |a|);
    }
  }

  // ---------- Reading at the very end of a buffer ----------

  ghost predicate NeedsBytes(ty: Ty) {
    match ty
    case Scalar(w) => w > 0
    case Str => true
    case SeqOf(_) => true
    case Product(ts) => exists i :: 0 <= i < |ts| && NeedsBytes(ts[i])
  }

  /** With nothing left to read, deserialize overruns exactly for types that occupy bytes. */
  lemma {:induction false} DecodeAtEnd(ty: Ty, buf: seq<Byte>)
    requires |buf| < INT32_LIMIT
    ensures Decode(ty, buf, |buf|).Overrun? <==> NeedsBytes(ty)
    ensures Decode(ty, buf, |buf|).Got? ==> Decode(ty, buf, |buf|).next == |buf|
    decreases ty, 1
  {
    match ty
    case Product(ts) => FieldsAtEnd(ts, buf);
    case _ =>
  }

  lemma {:induction false} FieldsAtEnd(ts: seq<Ty>, buf: seq<Byte>)
    requires |buf| < INT32_LIMIT
    ensures DecodeFields(ts, buf, |buf|).Overrun? <==> exists i :: 0 <= i < |ts| && NeedsBytes(ts[i])
    ensures DecodeFields(ts, buf, |buf|).Got? ==> DecodeFields(ts, buf, |buf|).next == |buf|
    decreases ts, 0
  {
    if ts != [] {
      DecodeAtEnd(ts[0], buf);
      FieldsAtEnd(ts[1..], buf);
      if i :| 0 <= i < |ts| && NeedsBytes(ts[i]) {
        if i > 0 { assert ts[1..][i - 1] == ts[i]; }
      }
    }
  }
}

/** codec::Serializer: an append-only buffer with a read cursor. */
module Serializer {
  import opened Bytes
  import opened SerializerFormat

  class Serializer {
    var buffer: seq<Byte>
    var pos: int

    constructor (data: seq<Byte>)
      ensures buffer == data && pos == 0
    {
      buffer, pos := data, 0;
    }

    method Serialize(v: Val, ty: Ty)
      requires HasType(v, ty)
      modifies `buffer
      ensures buffer == old(buffer) + Encode(v, ty)
      decreases v
    {
      hide LittleEndian;
      match (v, ty)
      case (Num(n), Scalar(w)) => buffer := buffer + LittleEndian(n, w);
      case (Text(bytes), Str) => buffer := buffer + LittleEndian(|bytes|, 8); buffer := buffer + bytes;
      case (Items(vs), SeqOf(e)) =>
        buffer := buffer + LittleEndian(|vs|, 4);
        ghost var head := buffer;
        SerializeItems(vs, e);
        assert old(buffer) + (LittleEndian(|vs|, 4) + EncodeItems(vs, e)) == head + EncodeItems(vs, e);
      case (Fields(vs), Product(ts)) =>
        SerializeFields(vs, ts);
    }

    /** std::for_each over a sequence container. */
    method SerializeItems(vs: seq<Val>, e: Ty)
      requires forall i :: 0 <= i < |vs| ==> HasType(vs[i], e)
      modifies `buffer
      ensures buffer == old(buffer) + EncodeItems(vs, e)
      decreases vs
    {
      var i := 0;
      while i < |vs|
        invariant 0 <= i <= |vs|
        invariant buffer + EncodeItems(vs[i..], e) == old(buffer) + EncodeItems(vs, e)
      {
        ghost var rest := vs[i..];
        assert rest[1..] == vs[i + 1..];
        ghost var before := buffer;
        Serialize(vs[i], e);
        assert before + (Encode(vs[i], e) + EncodeItems(rest[1..], e)) == buffer + EncodeItems(rest[1..], e);
        i := i + 1;
      }
    }

    /** std::apply over the members of a tuple or record. */
    method SerializeFields(vs: seq<Val>, ts: seq<Ty>)
      requires HaveTypes(vs, ts)
      modifies `buffer
      ensures buffer == old(buffer) + EncodeFields(vs, ts)
      decreases vs
    {
      var i := 0;
      while i < |vs|
        invariant 0 <= i <= |vs|
        invariant buffer + EncodeFields(vs[i..], ts[i..]) == old(buffer) + EncodeFields(vs, ts)
      {
        ghost var rest, types := vs[i..], ts[i..];
        assert rest[1..] == vs[i + 1..] && types[1..] == ts[i + 1..];
        ghost var before := buffer;
        Serialize(vs[i], ts[i]);
        assert before + (Encode(vs[i], ts[i]) + EncodeFields(rest[1..], types[1..]))
            == buffer + EncodeFields(rest[1..], types[1..]);
        i := i + 1;
      }
    }

    /** `deserialize` has no failure path; an overrun is reported here instead of left undefined. */
    method Deserialize(ty: Ty) returns (r: Decoded<Val>)
      modifies `pos
      ensures r == Decode(ty, buffer, old(pos))
      ensures r.Got? ==> pos == r.next
      decreases ty, 0
    {
      match ty
      case Scalar(w) =>
        var n := TakeNum(buffer, pos, w);
        if !n.Got? { return Overrun; }
        pos := n.next;
        r := Got(Num(n.value), pos);
      case Str =>
        var n := TakeNum(buffer, pos, 8);
        if !n.Got? { return Overrun; }
        pos := n.next;
        var t := Take(buffer, pos, n.value);
        if !t.Got? { return Overrun; }
        pos := t.next;
        r := Got(Text(t.value), pos);
      case SeqOf(e) =>
        var n := TakeNum(buffer, pos, 4);
        if !n.Got? { return Overrun; }
        pos := n.next;
        var vs := DeserializeItems(e, n.value);
        r := if vs.Got? then Got(Items(vs.value), pos) else Overrun;
      case Product(ts) =>
        var vs := DeserializeFields(ts);
        r := if vs.Got? then Got(Fields(vs.value), pos) else Overrun;
    }

    method DeserializeItems(e: Ty, count: nat) returns (r: Decoded<seq<Val>>)
      modifies `pos
      ensures r == DecodeItems(e, count, buffer, old(pos))
      ensures r.Got? ==> pos == r.next
      decreases e, 1
    {
      var vs: seq<Val> := [];
      PrependNothing(DecodeItems(e, count, buffer, pos));
      while |vs| < count
        invariant |vs| <= count
        invariant DecodeItems(e, count, buffer, old(pos))
               == Prepend(vs, DecodeItems(e, count - |vs|, buffer, pos))
      {
        var v := Deserialize(e);
        if !v.Got? { return Overrun; }
        PrependMore(vs, v.value, DecodeItems(e, count - |vs| - 1, buffer, pos));
        vs := vs + [v.value];
      }
      assert vs + [] == vs;
      r := Got(vs, pos);
    }

    method DeserializeFields(ts: seq<Ty>) returns (r: Decoded<seq<Val>>)
      modifies `pos
      ensures r == DecodeFields(ts, buffer, old(pos))
      ensures r.Got? ==> pos == r.next
      decreases ts, 0
    {
      var vs: seq<Val> := [];
      PrependNothing(DecodeFields(ts, buffer, pos));
      assert ts[0..] == ts;
      while |vs| < |ts|
        invariant |vs| <= |ts|
        invariant DecodeFields(ts, buffer, old(pos)) == Prepend(vs, DecodeFields(ts[|vs|..], buffer, pos))
      {
        assert ts[|vs|..][1..] == ts[|vs| + 1..];
        var v := Deserialize(ts[|vs|]);
        if !v.Got? { return Overrun; }
        PrependMore(vs, v.value, DecodeFields(ts[|vs| + 1..], buffer, pos));
        vs := vs + [v.value];
      }
      assert vs + [] == vs;
      r := Got(vs, pos);
    }
  }

  // A loop's result so far, put in front of what the rest of the loop will read.
  ghost function Prepend(vs: seq<Val>, r: Decoded<seq<Val>>): Decoded<seq<Val>> {
    if r.Got? then Got(vs + r.value, r.next) else Overrun
  }

  lemma PrependNothing(r: Decoded<seq<Val>>)
    ensures Prepend([], r) == r
  {
    if r.Got? { assert [] + r.value == r.value; }
  }

  lemma PrependMore(vs: seq<Val>, v: Val, r: Decoded<seq<Val>>)
    ensures Prepend(vs, Prepend([v], r)) == Prepend(vs + [v], r)
  {
    if r.Got? { assert vs + ([v] + r.value) == vs + [v] + r.value; }
  }
}
