/** net::BufPool: a size-class allocator over intrusive free lists (luce/io/io_buffer.cpp). */
module BufPool {
  import opened Options

  // Size classes in bytes, and the memory limit in KB.
  const M4K: nat := 4096
  const M16K: nat := 16384
  const M64K: nat := 65536
  const M256K: nat := 262144
  const M1M: nat := 1048576
  const M4M: nat := 4194304
  const M8M: nat := 8388608
  const MEM_LIMIT: nat := 5 * 1024 * 1024

  function Classes(): set<nat> { {M4K, M16K, M64K, M256K, M1M, M4M, M8M} }

  /** The size class a request of n bytes is served from. */
  function ClassOf(n: int): (key: Option<nat>)
    ensures key.Some? ==> key.value in Classes() && n <= key.value
    ensures key.Some? ==> forall c :: c in Classes() && n <= c ==> key.value <= c
    ensures key.None? <==> forall c :: c in Classes() ==> c < n
  {
    if n <= M4K then Some(M4K)
    else if n <= M16K then Some(M16K)
    else if n <= M64K then Some(M64K)
    else if n <= M256K then Some(M256K)
    else if n <= M1M then Some(M1M)
    else if n <= M4M then Some(M4M)
    else if n <= M8M then Some(M8M)
    else None
  }

  class IOBuf {
    const capacity: nat
    var next: IOBuf?
    var length: nat
    var head: nat

    constructor (size: nat)
      ensures capacity == size && next == null && length == 0 && head == 0
    {
      capacity := size;
      next, length, head := null, 0, 0;
    }
  }

  // Summed capacity in KB.
  ghost function KiloBytes(bufs: seq<IOBuf>): nat {
    if bufs == [] then 0 else KiloBytes(bufs[..|bufs| - 1]) + bufs[|bufs| - 1].capacity / 1024
  }

  lemma {:induction false} KiloBytesOfList(bufs: seq<IOBuf>, list: seq<IOBuf>, cap: nat)
    requires forall i :: 0 <= i < |list| ==> list[i].capacity == cap
    ensures KiloBytes(bufs + list) == KiloBytes(bufs) + |list| * (cap / 1024)
  {
    if list == [] {
      assert bufs + list == bufs;
    } else {
      var n := |list| - 1;
      KiloBytesOfList(bufs, list[..n], cap);
      assert (bufs + list)[..|bufs| + n] == bufs + list[..n];
      Distribute(n, cap / 1024);
    }
  }

  lemma Distribute(n: nat, q: nat)
    ensures (n + 1) * q == n * q + q
  {
  }

  lemma KiloBytesAppend(bufs: seq<IOBuf>, b: IOBuf)
    ensures KiloBytes(bufs + [b]) == KiloBytes(bufs) + b.capacity / 1024
  {
    assert (bufs + [b])[..|bufs|] == bufs;
  }

  function Head(list: seq<IOBuf>): IOBuf? { if list == [] then null else list[0] }

  function After(list: seq<IOBuf>, i: nat): IOBuf? { if i + 1 < |list| then list[i + 1] else null }

  ghost predicate Distinct(list: seq<IOBuf>) {
    forall i, j :: 0 <= i < j < |list| ==> list[i] != list[j]
  }

  // ---------- The state of the allocator, as a value ----------

  /** `pool`: the list heads. `links`: the next pointer of every buffer there is. `free`: the
      buffers on each free list. `out`: those handed out. `made`: all, in order of their making. */
  datatype View = View(
    pool: map<nat, IOBuf?>,
    links: map<IOBuf, IOBuf?>,
    free: map<nat, seq<IOBuf>>,
    out: set<IOBuf>,
    made: seq<IOBuf>)

  /** Free list k: following the pointers from its head visits free[k] and ends in null, so it has
      no cycle; its buffers have capacity k and are not handed out. */
  ghost predicate ListOk(v: View, k: nat)
    requires k in v.free && k in v.pool
  {
    var list := v.free[k];
    && v.pool[k] == Head(list) && Distinct(list)
    && forall i :: 0 <= i < |list| ==>
         list[i] in v.links && v.links[list[i]] == After(list, i) && list[i].capacity == k && list[i] !in v.out
  }

  // A buffer that is not handed out is on the free list of its capacity.
  ghost predicate Placed(v: View, b: IOBuf) {
    b.capacity in v.free && (b in v.out || b in v.free[b.capacity])
  }

  ghost predicate Lists(v: View) { v.pool.Keys == v.free.Keys && forall k :: k in v.free ==> ListOk(v, k) }

  ghost predicate Places(v: View) { forall b :: b in v.links ==> Placed(v, b) }

  ghost predicate Outs(v: View) { forall b :: b in v.out ==> b in v.links && v.links[b] == null }

  ghost predicate Made(v: View) {
    Distinct(v.made) && (forall b :: b in v.made ==> b in v.links) && (forall b :: b in v.links ==> b in v.made)
  }

  /** Every buffer is in exactly one place: lists of different capacity cannot share one. */
  ghost predicate Sound(v: View) { Lists(v) && Places(v) && Outs(v) && Made(v) }

  ghost function Unlinked(v: View, k: nat): View
    requires k in v.free && v.free[k] != []
  {
    var target := v.free[k][0];
    v.(pool := v.pool[k := Head(v.free[k][1..])], links := v.links[target := null],
       free := v.free[k := v.free[k][1..]], out := v.out + {target})
  }

  ghost function Reverted(v: View, b: IOBuf): View
    requires b.capacity in v.free
  {
    var k := b.capacity;
    v.(pool := v.pool[k := b], links := v.links[b := Head(v.free[k])],
       free := v.free[k := [b] + v.free[k]], out := v.out - {b})
  }

  ghost function HandedOutNew(v: View, b: IOBuf): View {
    v.(links := v.links[b := null], out := v.out + {b}, made := v.made + [b])
  }

  // List j does not notice a change to a buffer that is not on it.
  lemma ListFrame(v: View, v': View, j: nat)
    requires j in v.free && j in v.pool && ListOk(v, j)
    requires j in v'.free && j in v'.pool && v'.free[j] == v.free[j] && v'.pool[j] == v.pool[j]
    requires forall b :: b in v.links && b.capacity == j && b !in v.out ==>
      b in v'.links && v'.links[b] == v.links[b] && b !in v'.out
    ensures ListOk(v', j)
  {
  }

  lemma UnlinkedList(v: View, k: nat)
    requires k in v.free && k in v.pool && v.free[k] != [] && ListOk(v, k)
    ensures ListOk(Unlinked(v, k), k)
  {
    var list, v' := v.free[k], Unlinked(v, k);
    forall i | 0 <= i < |list[1..]| ensures v'.links[list[1..][i]] == After(list[1..], i) {
      assert list[1..][i] == list[i + 1];
    }
  }

  lemma UnlinkFacts(v: View, k: nat)
    requires k in v.free && k in v.pool && v.free[k] != [] && ListOk(v, k)
    ensures v.free[k][0] in v.links && v.free[k][0].capacity == k
    ensures v.pool[k] == v.free[k][0] && v.links[v.free[k][0]] == Head(v.free[k][1..]) && v.free[k][0] !in v.out
  {
  }

  lemma UnlinkKeepsLists(v: View, k: nat)
    requires Lists(v) && k in v.free && v.free[k] != []
    ensures Lists(Unlinked(v, k))
  {
    hide ListOk;
    var v' := Unlinked(v, k);
    UnlinkFacts(v, k);
    UnlinkedList(v, k);
    forall j | j in v'.free ensures ListOk(v', j) {
      if j != k { ListFrame(v, v', j); }
    }
  }

  lemma UnlinkKeepsPlaces(v: View, k: nat)
    requires Places(v) && k in v.free && v.free[k] != [] && v.free[k][0].capacity == k
    ensures v.free[k][0] in v.links ==> Places(Unlinked(v, k))
  {
    hide Placed;
    if v.free[k][0] in v.links {
      forall b | b in Unlinked(v, k).links ensures Placed(Unlinked(v, k), b) { UnlinkPlaces(v, k, b); }
    }
  }

  lemma UnlinkKeepsSound(v: View, k: nat)
    requires Sound(v) && k in v.free && v.free[k] != []
    ensures Sound(Unlinked(v, k))
    ensures k in v.pool && v.free[k][0] in v.links && v.free[k][0].capacity == k
    ensures v.pool[k] == v.free[k][0] && v.links[v.free[k][0]] == Head(v.free[k][1..]) && v.free[k][0] !in v.out
  {
    assert k in v.pool && ListOk(v, k);
    hide Lists;
    hide Places;
    hide Outs;
    hide Made;
    UnlinkFacts(v, k);
    hide ListOk;
    UnlinkKeepsLists(v, k);
    UnlinkKeepsPlaces(v, k);
    UnlinkKeepsRest(v, k);
  }

  lemma UnlinkKeepsRest(v: View, k: nat)
    requires Outs(v) && Made(v) && k in v.free && v.free[k] != [] && v.free[k][0] in v.links
    ensures Outs(Unlinked(v, k)) && Made(Unlinked(v, k))
  {
    hide Distinct;
  }

  lemma UnlinkPlaces(v: View, k: nat, b: IOBuf)
    requires k in v.free && v.free[k] != [] && Placed(v, b)
    ensures Placed(Unlinked(v, k), b)
  {
    var list := v.free[k];
    if b !in v.out && b.capacity == k && b != list[0] {
      var i :| 0 <= i < |list| && list[i] == b;
      assert list[1..][i - 1] == b;
    }
  }

  lemma HeadTellsEmpty(v: View, k: nat)
    requires Sound(v) && k in v.free
    ensures k in v.pool && (v.pool[k] == null <==> v.free[k] == [])
  {
    assert ListOk(v, k);
  }

  lemma RevertedList(v: View, b: IOBuf)
    requires b.capacity in v.free && b.capacity in v.pool && ListOk(v, b.capacity)
    requires b in v.out && b in v.links
    ensures ListOk(Reverted(v, b), b.capacity)
  {
  }

  lemma RevertKeepsLists(v: View, b: IOBuf)
    requires Lists(v) && b in v.out && b in v.links && b.capacity in v.free
    ensures Lists(Reverted(v, b)) && v.pool[b.capacity] == Head(v.free[b.capacity])
  {
    var v', k := Reverted(v, b), b.capacity;
    assert ListOk(v, k);
    RevertedList(v, b);
    hide ListOk;
    forall j | j in v'.free ensures ListOk(v', j) {
      if j != k { ListFrame(v, v', j); }
    }
  }

  lemma RevertKeepsPlaces(v: View, b: IOBuf)
    requires Places(v) && b in v.links && b.capacity in v.free
    ensures Places(Reverted(v, b))
  {
    var v' := Reverted(v, b);
    forall c | c in v'.links ensures Placed(v', c) {
      assert Placed(v, c);
    }
  }

  lemma RevertKeepsSound(v: View, b: IOBuf)
    requires Sound(v) && b in v.out
    ensures b.capacity in v.free && b.capacity in v.pool && Sound(Reverted(v, b))
    ensures v.pool[b.capacity] == Head(v.free[b.capacity])
  {
    assert Placed(v, b);
    RevertKeepsLists(v, b);
    RevertKeepsPlaces(v, b);
    assert b.capacity in v.pool;
    hide Lists;
    hide Places;
    hide Distinct;
  }

  lemma HandOutKeepsLists(v: View, b: IOBuf)
    requires Lists(v) && b !in v.links && b.capacity in v.free
    ensures Lists(HandedOutNew(v, b))
  {
    hide ListOk;
    var v' := HandedOutNew(v, b);
    forall j | j in v'.free ensures ListOk(v', j) { ListFrame(v, v', j); }
  }

  lemma HandOutKeepsPlaces(v: View, b: IOBuf)
    requires Places(v) && b.capacity in v.free
    ensures Places(HandedOutNew(v, b))
  {
    var v' := HandedOutNew(v, b);
    forall c | c in v'.links ensures Placed(v', c) {
      if c != b { assert Placed(v, c); }
    }
  }

  lemma HandOutKeepsSound(v: View, b: IOBuf)
    requires Sound(v) && b !in v.links && b.capacity in v.free
    ensures Sound(HandedOutNew(v, b))
  {
    HandOutKeepsLists(v, b);
    HandOutKeepsPlaces(v, b);
    HandOutKeepsMade(v, b);
    hide Lists;
    hide Places;
    hide Made;
  }

  lemma HandOutKeepsMade(v: View, b: IOBuf)
    requires Made(v) && b !in v.links
    ensures Made(HandedOutNew(v, b))
  {
    var made := v.made + [b];
    forall i, j | 0 <= i < j < |made| ensures made[i] != made[j] { assert made[i] in v.made; }
    assert forall c :: c in made <==> c in v.made || c == b;
    hide Distinct;
  }

  /** Taking a buffer out and putting it back restores the free lists. */
  lemma RevertUndoesUnlink(v: View, k: nat)
    requires Sound(v) && k in v.free && v.free[k] != []
    ensures v.free[k][0].capacity == k && Reverted(Unlinked(v, k), v.free[k][0]) == v
  {
    hide Sound;
    UnlinkKeepsSound(v, k);
    var b, list := v.free[k][0], v.free[k];
    assert [b] + list[1..] == list;
    assert v.pool[k := Head(list[1..])][k := b] == v.pool;
    assert v.links[b := null][b := Head(list[1..])] == v.links;
    assert v.free[k := list[1..]][k := list] == v.free;
    assert v.out + {b} - {b} == v.out;
  }

  /** What Sound says about any two places a buffer could be in. */
  lemma PlacesAreDisjoint(v: View, j: nat, k: nat, b: IOBuf)
    requires Sound(v) && j in v.free && k in v.free && b in v.free[j]
    ensures b !in v.out && (b in v.free[k] <==> j == k)
  {
    assert ListOk(v, j) && ListOk(v, k);
    hide Places;
    hide Made;
  }

  // v' is v with a whole new free list, linked front to back, in a class that had none.
  ghost predicate NewList(v: View, v': View, k: nat, list: seq<IOBuf>) {
    && k !in v.free && list != [] && Distinct(list)
    && (forall i :: 0 <= i < |list| ==> list[i] !in v.links && list[i].capacity == k)
    && v'.pool == v.pool[k := list[0]] && v'.free == v.free[k := list]
    && v'.out == v.out && v'.made == v.made + list
    && (forall b :: b in v'.links ==> b in v.links || b in list)
    && (forall b :: b in v.links ==> b in v'.links && v'.links[b] == v.links[b])
    && (forall i :: 0 <= i < |list| ==> list[i] in v'.links && v'.links[list[i]] == After(list, i))
  }

  ghost function Added(v: View, k: nat, list: seq<IOBuf>, nexts: map<IOBuf, IOBuf?>): View
    requires list != []
  {
    View(v.pool[k := list[0]], v.links + nexts, v.free[k := list], v.out, v.made + list)
  }

  lemma AddedList(v: View, k: nat, list: seq<IOBuf>, nexts: map<IOBuf, IOBuf?>)
    requires k !in v.free && list != [] && Distinct(list)
    requires forall i :: 0 <= i < |list| ==> list[i] !in v.links && list[i].capacity == k
    requires forall b :: b in nexts <==> b in list
    requires forall i :: 0 <= i < |list| ==> list[i] in nexts && nexts[list[i]] == After(list, i)
    ensures NewList(v, Added(v, k, list, nexts), k, list)
  {
    hide Distinct;
    hide After;
    forall b | b in v.links ensures b !in nexts {
      if b in list { assert false; }
    }
  }

  lemma NewListKeepsLists(v: View, v': View, k: nat, list: seq<IOBuf>)
    requires Lists(v) && Outs(v) && NewList(v, v', k, list)
    ensures Lists(v')
  {
    forall i | 0 <= i < |list| ensures list[i] !in v'.out { assert list[i] !in v.links; }
    assert ListOk(v', k);
    hide ListOk;
    forall j | j in v'.free ensures ListOk(v', j) {
      if j != k { ListFrame(v, v', j); }
    }
  }

  lemma NewListKeepsPlaces(v: View, v': View, k: nat, list: seq<IOBuf>)
    requires Places(v) && NewList(v, v', k, list)
    ensures Places(v')
  {
    forall b | b in v'.links ensures Placed(v', b) {
      if b in v.links { assert Placed(v, b); }
    }
  }

  lemma NewListKeepsMade(v: View, v': View, k: nat, list: seq<IOBuf>)
    requires Made(v) && NewList(v, v', k, list)
    ensures Made(v')
  {
    forall i, j | 0 <= i < j < |v'.made| ensures v'.made[i] != v'.made[j] {
      if i < |v.made| <= j { assert v.made[i] in v.made; }
    }
  }

  lemma NewListKeepsSound(v: View, v': View, k: nat, list: seq<IOBuf>)
    requires Sound(v) && NewList(v, v', k, list)
    ensures Sound(v')
  {
    NewListKeepsLists(v, v', k, list);
    NewListKeepsPlaces(v, v', k, list);
    NewListKeepsMade(v, v', k, list);
    hide Lists;
    hide Places;
    hide Made;
  }

  // ---------- The allocator ----------

  lemma EmptyIsSound()
    ensures Sound(View(map[], map[], map[], {}, [])) && KiloBytes([]) == 0
  {
  }

  // The free list of capacity k has n buffers.
  ghost predicate Stocked(free: map<nat, seq<IOBuf>>, k: nat, n: nat) { k in free && |free[k]| == n }

  datatype Alloc = Got(buffer: IOBuf) | TooLarge | LimitReached  // nullptr; exit(1)

  class Pool {
    var pool: map<nat, IOBuf?>
    var totalMem: nat
    ghost var view: View

    // The view shows the heads and the next pointers as they are, and what is free is clear.
    ghost predicate Shown()
      reads this, view.links.Keys
    {
      && view.pool == pool && (forall b :: b in view.links ==> b.next == view.links[b])
      && (forall b :: b in view.links && b !in view.out ==> b.length == 0 && b.head == 0)
    }

    /** totalMem accounts for every buffer and stays below the limit. */
    ghost predicate Valid()
      reads this, view.links.Keys
    {
      Shown() && Sound(view) && view.free.Keys == Classes() && totalMem == KiloBytes(view.made) < MEM_LIMIT
    }

    /** The pool starts with seven free lists, about 326 MB. */
    constructor ()
      ensures Valid() && view.out == {} && totalMem == 334240
      ensures Stocked(view.free, 4096, 5000) && Stocked(view.free, 16384, 1000) && Stocked(view.free, 65536, 500)
      ensures Stocked(view.free, 262144, 200) && Stocked(view.free, 1048576, 50)
      ensures Stocked(view.free, 4194304, 20) && Stocked(view.free, 8388608, 10)
      ensures forall b :: b in view.links ==> fresh(b)
    {
      pool, totalMem := map[], 0;
      view := View(map[], map[], map[], {}, []);
      new;
      EmptyBooked();
      hide Booked;
      hide Stocked;
      hide Valid;
      StockSmall();
      StockLarge();
      AllClasses();
      BookedIsValid();
    }

    static lemma AllClasses()
      ensures {M4K, M16K, M64K, M256K} + {M1M, M4M, M8M} == Classes()
    {
    }

    method StockSmall()
      requires Booked() && view.free.Keys == {} && view.out == {} && totalMem == 0
      modifies this
      ensures Booked() && view.free.Keys == {M4K, M16K, M64K, M256K} && view.out == {} && totalMem == 119200
      ensures Stocked(view.free, M4K, 5000) && Stocked(view.free, M16K, 1000)
      ensures Stocked(view.free, M64K, 500) && Stocked(view.free, M256K, 200)
      ensures forall b :: b in view.links ==> b in old(view.links) || fresh(b)
    {
      hide Booked;
      Stock(M4K, 5000, 4);
      Stock(M16K, 1000, 16);
      Stock(M64K, 500, 64);
      Stock(M256K, 200, 256);
      assert view.free.Keys == {M4K, M16K, M64K, M256K};
    }

    method StockLarge()
      requires Booked() && view.free.Keys == {M4K, M16K, M64K, M256K} && view.out == {} && totalMem == 119200
      modifies this
      ensures Booked() && view.free.Keys == {M4K, M16K, M64K, M256K} + {M1M, M4M, M8M}
      ensures view.out == {} && totalMem == 334240
      ensures forall k, n :: Stocked(old(view.free), k, n) ==> Stocked(view.free, k, n)
      ensures Stocked(view.free, M1M, 50) && Stocked(view.free, M4M, 20) && Stocked(view.free, M8M, 10)
      ensures forall b :: b in view.links ==> b in old(view.links) || fresh(b)
    {
      hide Booked;
      Stock(M1M, 50, 1024);
      Stock(M4M, 20, 4096);
      Stock(M8M, 10, 8192);
      assert view.free.Keys == {M4K, M16K, M64K, M256K} + {M1M, M4M, M8M};
    }

    lemma EmptyBooked()
      requires view == View(map[], map[], map[], {}, []) && pool == map[] && totalMem == 0
      ensures Booked()
    {
      EmptyIsSound();
    }

    lemma BookedIsValid()
      requires Booked() && view.free.Keys == Classes() && totalMem < MEM_LIMIT
      ensures Valid()
    {
    }

    ghost predicate Booked()
      reads this, view.links.Keys
    {
      Shown() && Sound(view) && totalMem == KiloBytes(view.made)
    }

    /** One pair of constructor lines: a free list and its share of total_mem_. */
    method Stock(cap: nat, num: nat, kb: nat)
      requires Booked() && cap !in view.free && num > 0 && kb == cap / 1024 && view.out == {}
      modifies this
      ensures Booked() && view.free.Keys == old(view.free.Keys) + {cap} && view.out == {}
      ensures Stocked(view.free, cap, num)
      ensures forall k, n :: Stocked(old(view.free), k, n) ==> Stocked(view.free, k, n)
      ensures totalMem == old(totalMem) + kb * num
      ensures forall b :: b in view.links ==> b in old(view.links) || fresh(b)
    {
      hide Sound;
      hide KiloBytes;
      AllocPoolMem(cap, num);
      totalMem := totalMem + kb * num;
    }

    /** AllocPoolMem: a free list of `num` new buffers for a class that had none. */
    method AllocPoolMem(cap: nat, num: nat)
      requires Shown() && Sound(view) && cap !in view.free && num > 0
      modifies this
      ensures Shown() && Sound(view) && view.out == old(view.out) && totalMem == old(totalMem)
      ensures view.free.Keys == old(view.free.Keys) + {cap}
      ensures Stocked(view.free, cap, num)
      ensures forall k, n :: Stocked(old(view.free), k, n) ==> Stocked(view.free, k, n)
      ensures KiloBytes(view.made) == old(KiloBytes(view.made)) + num * (cap / 1024)
      ensures forall b :: b in view.links ==> b in old(view.links) || fresh(b)
    {
      hide Sound;
      hide KiloBytes;
      hide Distinct;
      hide After;
      hide Shown;
      var first, list := LinkedList(cap, num);
      assert Shown() by { ShownStays(); }
      KiloBytesOfList(view.made, list, cap);
      Install(cap, first, list);
    }

    // Making other buffers leaves what the pool shows as it is.
    twostate lemma ShownStays()
      requires old(Shown()) && pool == old(pool) && view == old(view)
      requires forall b :: b in view.links ==> unchanged(b)
      ensures Shown()
    {
    }

    /** Put a linked list of new buffers under its capacity. */
    method Install(cap: nat, first: IOBuf, ghost list: seq<IOBuf>)
      requires Shown() && Sound(view) && cap !in view.free && list != [] && Distinct(list) && list[0] == first
      requires forall i :: 0 <= i < |list| ==>
        && list[i] !in view.links && list[i].capacity == cap && list[i].next == After(list, i)
        && list[i].length == 0 && list[i].head == 0
      modifies this
      ensures Shown() && Sound(view) && totalMem == old(totalMem) && view.out == old(view.out)
      ensures view.free == old(view.free)[cap := list] && view.made == old(view.made) + list
      ensures forall b :: b in view.links ==> b in old(view.links) || b in list
    {
      hide Sound;
      hide Distinct;
      hide After;
      pool := pool[cap := first];
      ghost var nexts := map b | b in list :: b.next;
      AddedList(view, cap, list, nexts);
      hide NewList;
      NewListKeepsSound(view, Added(view, cap, list, nexts), cap, list);
      view := Added(view, cap, list, nexts);
    }

    /** The loop of AllocPoolMem: each new buffer is linked behind the last. */
    static method LinkedList(cap: nat, num: nat) returns (first: IOBuf, ghost list: seq<IOBuf>)
      requires num > 0
      ensures |list| == num && list[0] == first && Distinct(list)
      ensures forall k :: 0 <= k < |list| ==>
        && fresh(list[k]) && list[k].capacity == cap && list[k].next == After(list, k)
        && list[k].length == 0 && list[k].head == 0
    {
      first := new IOBuf(cap);
      list := [first];
      var prev := first;
      var i := 1;
      while i < num
        invariant 1 <= i <= num && |list| == i && prev == list[i - 1] && list[0] == first
        invariant forall k :: 0 <= k < |list| ==>
          && fresh(list[k]) && list[k].capacity == cap && list[k].next == After(list, k)
          && list[k].length == 0 && list[k].head == 0
        invariant Distinct(list)
      {
        var buf := new IOBuf(cap);
        prev.next := buf;
        list := list + [buf];
        prev := buf;
        i := i + 1;
      }
    }

    /** Serve n bytes from the smallest class that fits: reuse a free buffer or make one, as long as
        the total stays below the limit. */
    method AllocBuf(n: int) returns (r: Alloc)
      requires Valid()
      modifies this, view.links.Keys`next
      ensures Valid()
      ensures r.TooLarge? <==> n > 8388608
      ensures r.LimitReached? <==>
        n <= 8388608 && old(view).free[ClassOf(n).value] == [] && old(totalMem) + ClassOf(n).value / 1024 >= 5242880
      ensures !r.Got? ==> view == old(view)
      ensures r.Got? ==> r.buffer.capacity == ClassOf(n).value && r.buffer !in old(view).out
      ensures r.Got? ==> r.buffer.length == 0 && r.buffer.head == 0
      ensures r.Got? ==>
        if old(view).free[ClassOf(n).value] == [] then fresh(r.buffer) && view == HandedOutNew(old(view), r.buffer)
        else r.buffer == old(view).free[ClassOf(n).value][0] && view == Unlinked(old(view), ClassOf(n).value)
    {
      hide Sound;
      var c := ClassOf(n);
      if c.None? { return TooLarge; }
      HeadTellsEmpty(view, c.value);
      if pool[c.value] == null {
        if totalMem + c.value / 1024 >= MEM_LIMIT { return LimitReached; }
        var buffer := Grow(c.value);
        r := Got(buffer);
      } else {
        var buffer := Unlink(c.value);
        r := Got(buffer);
      }
    }

    method Grow(key: nat) returns (buffer: IOBuf)
      requires Valid() && key in view.free && totalMem + key / 1024 < MEM_LIMIT
      modifies this
      ensures Valid() && fresh(buffer) && buffer.capacity == key && view == HandedOutNew(old(view), buffer)
      ensures buffer.length == 0 && buffer.head == 0
    {
      hide Sound;
      hide KiloBytes;
      hide Classes;
      buffer := new IOBuf(key);
      HandOutKeepsSound(view, buffer);
      KiloBytesAppend(view.made, buffer);
      totalMem := totalMem + key / 1024;
      view := HandedOutNew(view, buffer);
    }

    method Unlink(key: nat) returns (target: IOBuf)
      requires Valid() && key in view.free && view.free[key] != []
      modifies this, view.links.Keys`next
      ensures Valid() && target == old(view).free[key][0] && view == Unlinked(old(view), key)
      ensures target.capacity == key && target !in old(view).out && target.length == 0 && target.head == 0
    {
      hide Sound;
      hide KiloBytes;
      hide Classes;
      UnlinkKeepsSound(view, key);
      target := pool[key];
      pool := pool[key := target.next];
      target.next := null;
      view := Unlinked(view, key);
    }

    /** Put an outstanding buffer back at the head of the list of its capacity. */
    method Revert(buffer: IOBuf)
      requires Valid() && buffer in view.out
      modifies this, buffer
      ensures Valid() && view == Reverted(old(view), buffer) && totalMem == old(totalMem)
      ensures buffer.head == 0 && buffer.length == 0
    {
      hide Sound;
      hide ListOk;
      hide KiloBytes;
      hide Classes;
      RevertKeepsSound(view, buffer);
      var key := buffer.capacity;
      buffer.head := 0;
      buffer.length := 0;
      buffer.next := pool[key];
      pool := pool[key := buffer];
      view := Reverted(view, buffer);
    }
  }
}
