/**
 scales_t of dev/has_def.cpp: a short array of floats kept in an inline buffer or on the
 heap, with a NaN bit pattern as the "known only at run time" sentinel.  Floats are 32-bit
 patterns compared as section 5.11 of IEEE 754-2008 prescribes.  Objects and heap blocks
 live in one World, so that ownership of blocks can be stated over many objects.
 */
module Scales {

  import InvSqrt

  type Id = nat
  type Addr = nat

  const RUNTIME: nat := 0x7fc000d0
  const ONE: nat := 0x3f800000
  const BUF_SIZE: nat := 16

  predicate IsNaN(x: nat) { x % 0x8000_0000 > 0x7f80_0000 }

  /** == on floats: false when either is a NaN, and the two zeros are equal. */
  predicate FloatEq(x: nat, y: nat) {
    !IsNaN(x) && !IsNaN(y) && (x == y || (x % 0x8000_0000 == 0 && y % 0x8000_0000 == 0))
  }

  // ---- what float equality decides ----

  const SIGN: nat := 0x8000_0000
  const INFINITY: nat := 0x7f80_0000

  /** Below the infinity, sign aside. */
  predicate IsFinite(x: nat) { x % SIGN < INFINITY }

  /** The number a finite pattern of 32 bits stands for. */
  function Number(x: nat): real
    requires x < 2 * SIGN && IsFinite(x)
  {
    if x < SIGN then InvSqrt.Value(InvSqrt.SINGLE, x) else -InvSqrt.Value(InvSqrt.SINGLE, x - SIGN)
  }

  /** Different magnitudes stand for different numbers, and only the zeros for zero. */
  lemma MagnitudesDiffer(a: nat, b: nat)
    ensures InvSqrt.Value(InvSqrt.SINGLE, a) == InvSqrt.Value(InvSqrt.SINGLE, b) <==> a == b
    ensures InvSqrt.Value(InvSqrt.SINGLE, a) >= 0.0 && (InvSqrt.Value(InvSqrt.SINGLE, a) == 0.0 <==> a == 0)
  {
    InvSqrt.ValueStep(InvSqrt.SINGLE, 0);
    if a < b { InvSqrt.ValueIncreases(InvSqrt.SINGLE, a, b); }
    if b < a { InvSqrt.ValueIncreases(InvSqrt.SINGLE, b, a); }
    if 0 < a { InvSqrt.ValueIncreases(InvSqrt.SINGLE, 0, a); }
  }

  /** Finite patterns are equal exactly if they stand for the same number. */
  lemma FiniteEq(x: nat, y: nat)
    requires x < 2 * SIGN && y < 2 * SIGN && IsFinite(x) && IsFinite(y)
    ensures FloatEq(x, y) <==> Number(x) == Number(y)
  {
    var a, b := if x < SIGN then x else x - SIGN, if y < SIGN then y else y - SIGN;
    assert x % SIGN == a && y % SIGN == b;
    MagnitudesDiffer(a, b);
    MagnitudesDiffer(b, a);
  }

  /** The classes of patterns, in ranges. */
  lemma PatternClasses(x: nat)
    requires x < 0x1_0000_0000
    ensures IsFinite(x) <==> x < 0x7f80_0000 || 0x8000_0000 <= x < 0xff80_0000
    ensures IsNaN(x) <==> 0x7f80_0000 < x < 0x8000_0000 || 0xff80_0000 < x
  {
  }

  /**
   Finite patterns are equal exactly if they stand for the same number, an infinity equals only
   itself, and a NaN, which is any other pattern, equals nothing.
   */
  lemma FloatEqDecides(x: nat, y: nat)
    requires x < 0x1_0000_0000 && y < 0x1_0000_0000
    ensures IsFinite(x) && IsFinite(y) ==> (FloatEq(x, y) <==> Number(x) == Number(y))
    ensures x in {0x7f80_0000, 0xff80_0000} ==> (FloatEq(x, y) <==> y == x) && (FloatEq(y, x) <==> y == x)
    ensures !IsFinite(x) && x !in {0x7f80_0000, 0xff80_0000} ==> !FloatEq(x, y) && !FloatEq(y, x)
  {
    PatternClasses(x);
    PatternClasses(y);
    if IsFinite(x) && IsFinite(y) { FiniteEq(x, y); }
  }

  datatype Cell = Uninit | Word(bits: nat)

  /** Where scales_ points: nowhere, at the object's own scales_buf_, or at a heap block. */
  datatype Pointer = Null | Inline | Block(addr: Addr)

  datatype Scales = Scales(count: nat, mask: int, ptr: Pointer, buf: seq<Cell>)

  /** A `const float *` argument: caller memory, some object's inline buffer, or a heap block. */
  datatype Source = User(cells: seq<Cell>) | BufferOf(owner: Id) | Heap(addr: Addr)

  datatype World = World(objs: map<Id, Scales>, heap: map<Addr, seq<Cell>>)

  function Cells(w: World, src: Source): seq<Cell> {
    match src
    case User(cells) => cells
    case BufferOf(owner) => if owner in w.objs then w.objs[owner].buf else []
    case Heap(addr) => if addr in w.heap then w.heap[addr] else []
  }

  /** The first n cells behind a pointer are live and initialised. */
  ghost predicate Readable(cells: seq<Cell>, n: nat) {
    n <= |cells| && forall i :: 0 <= i < n ==> cells[i].Word?
  }

  /** The pointer an object's scales_ field amounts to. */
  function PointerOf(w: World, id: Id): Source
    requires id in w.objs
  {
    match w.objs[id].ptr
    case Null => User([])
    case Inline => BufferOf(id)
    case Block(addr) => Heap(addr)
  }

  function Held(w: World, id: Id): seq<Cell>
    requires id in w.objs
  {
    Cells(w, PointerOf(w, id))
  }

  // ---- the invariant ----

  /** The scales an object needs to have: one when the first is the sentinel, else count. */
  ghost predicate Sound(o: Scales, held: seq<Cell>) {
    && |o.buf| == BUF_SIZE && o.count >= 1
    && (o.ptr.Inline? ==> Readable(held, 1) && (held[0] == Word(RUNTIME) || o.count == 1))
    && (o.ptr.Block? ==> |held| == o.count && Readable(held, o.count) && held[0] != Word(RUNTIME) && o.count > 1)
    && (o.ptr.Null? ==> o.count > 1)
  }

  ghost predicate Owns(w: World, id: Id, addr: Addr) {
    id in w.objs && w.objs[id].ptr == Block(addr)
  }

  /** Every object is sound, no block is shared, no pointer dangles, no block is leaked. */
  ghost predicate Inv(w: World) {
    && (forall id :: id in w.objs ==> Sound(w.objs[id], Held(w, id)))
    && (forall id, addr :: Owns(w, id, addr) ==> addr in w.heap)
    && (forall i, j, addr :: Owns(w, i, addr) && Owns(w, j, addr) ==> i == j)
    && (forall addr :: addr in w.heap ==> exists id :: Owns(w, id, addr))
  }

  // ---- operations ----

  function Filled(c: Cell): seq<Cell> {
    seq(BUF_SIZE, _ => c)
  }

  function Free(w: World, addr: Addr): World {
    w.(heap := w.heap - {addr})
  }

  function Cleanup(w: World, id: Id): World
    requires id in w.objs
  {
    var o := w.objs[id];
    var w' := if o.ptr.Block? then Free(w, o.ptr.addr) else w;
    w'.(objs := w.objs[id := o.(count := 1, mask := 0, ptr := Inline)])
  }

  /**
   What set demands of its caller and of malloc: at least one scale, a source that holds
   what will be read and is not the block about to be freed, and a block that is not in use.
   */
  ghost predicate Settable(w: World, id: Id, count: nat, src: Source, grant: Pointer) {
    && id in w.objs && |w.objs[id].buf| == BUF_SIZE && count >= 1
    && (w.objs[id].ptr.Block? ==> src != Heap(w.objs[id].ptr.addr))
    && Readable(Cells(w, src), 1)
    && (Cells(w, src)[0] != Word(RUNTIME) ==> Readable(Cells(w, src), count))
    && !grant.Inline? && (grant.Block? ==> grant.addr !in Cleanup(w, id).heap)
  }

  /** Cleaning the target up does not touch the source. */
  lemma SourceSurvives(w: World, id: Id, count: nat, src: Source, grant: Pointer)
    requires Settable(w, id, count, src, grant)
    ensures Cells(Cleanup(w, id), src) == Cells(w, src)
  {
  }

  /** The second half of set, after the clean-up. */
  function Store(w: World, id: Id, count: nat, mask: int, src: Source, grant: Pointer): (r: (World, bool))
    requires id in w.objs && |w.objs[id].buf| == BUF_SIZE
    requires Readable(Cells(w, src), 1) && (Cells(w, src)[0] != Word(RUNTIME) ==> Readable(Cells(w, src), count))
  {
    var cells := Cells(w, src);
    var o := w.objs[id].(count := count, mask := mask);
    if cells[0] == Word(RUNTIME) then
      (w.(objs := w.objs[id := o.(buf := o.buf[0 := cells[0]])]), true)
    else if count == 1 then
      (w.(objs := w.objs[id := o.(buf := Filled(cells[0]))]), true)
    else if grant.Block? then
      (World(w.objs[id := o.(ptr := grant)], w.heap[grant.addr := cells[..count]]), true)
    else
      (w.(objs := w.objs[id := o.(ptr := Null)]), false)
  }

  /** set(count, mask, scales): the new world and whether memory sufficed.  The grant is malloc's answer. */
  function Set(w: World, id: Id, count: nat, mask: int, src: Source, grant: Pointer): (r: (World, bool))
    requires Settable(w, id, count, src, grant)
  {
    SourceSurvives(w, id, count, src, grant);
    Store(Cleanup(w, id), id, count, mask, src, grant)
  }

  /** An object freshly declared: scales_ at the inline buffer, nothing initialised yet. */
  function Declare(w: World, id: Id): World {
    w.(objs := w.objs[id := Scales(1, 0, Inline, Filled(Uninit))])
  }

  datatype Op =
    | Default(id: Id)
    | FromArguments(id: Id, count: nat, mask: int, src: Source, grant: Pointer)
    | CopyOf(id: Id, rhs: Id, grant: Pointer)
    | Reset(id: Id, count: nat, mask: int, src: Source, grant: Pointer)
    | Assign(id: Id, rhs: Id, grant: Pointer)
    | Destroy(id: Id)

  /** The default constructor: one scale of 1.0. */
  function DefaultConstruct(w: World, id: Id): World
    requires id !in w.objs
  {
    Set(Declare(w, id), id, 1, 0, User([Word(ONE)]), Null).0
  }

  ghost predicate Legal(w: World, op: Op) {
    match op
    case Default(id) => id !in w.objs
    case FromArguments(id, count, _, src, grant) => id !in w.objs && Settable(Declare(w, id), id, count, src, grant)
    case CopyOf(id, rhs, grant) =>
      && id !in w.objs && rhs in w.objs
      && !grant.Inline? && (grant.Block? ==> grant.addr !in w.heap)
    case Reset(id, count, _, src, grant) => Settable(w, id, count, src, grant)
    case Assign(id, rhs, grant) =>
      && id in w.objs && rhs in w.objs
      && !grant.Inline? && (grant.Block? ==> grant.addr !in Cleanup(w, id).heap)
    case Destroy(id) => id in w.objs
  }

  /** The scales to copy are behind a null pointer, which an earlier set that was refused memory has left. */
  predicate NullSource(w: World, op: Op) {
    match op
    case CopyOf(_, rhs, _) => rhs in w.objs && w.objs[rhs].ptr.Null?
    case Assign(id, rhs, _) => id != rhs && rhs in w.objs && w.objs[rhs].ptr.Null?
    case _ => false
  }

  /** What set has done when it first reads its source. */
  function Begun(w: World, id: Id, count: nat, mask: int): World
    requires id in w.objs
  {
    var w1 := Cleanup(w, id);
    w1.(objs := w1.objs[id := w1.objs[id].(count := count, mask := mask)])
  }

  /** The world an operation leaves; with a null source, the one in which it reads through null. */
  function Step(w: World, op: Op): World
    requires Inv(w) && Legal(w, op)
  {
    match op
    case Default(id) => DefaultConstruct(w, id)
    case FromArguments(id, count, mask, src, grant) => Set(Declare(w, id), id, count, mask, src, grant).0
    case CopyOf(id, rhs, grant) =>
      var w1 := DefaultConstruct(w, id);
      var o := w.objs[rhs];
      CopySettable(w, w1, id, rhs, grant);
      if o.ptr.Null? then Begun(w1, id, o.count, o.mask) else Set(w1, id, o.count, o.mask, PointerOf(w1, rhs), grant).0
    case Reset(id, count, mask, src, grant) => Set(w, id, count, mask, src, grant).0
    case Assign(id, rhs, grant) =>
      if id == rhs then w
      else
        var o := w.objs[rhs];
        AssignSettable(w, id, rhs, grant);
        if o.ptr.Null? then Begun(w, id, o.count, o.mask) else Set(w, id, o.count, o.mask, PointerOf(w, rhs), grant).0
    case Destroy(id) => var w1 := Cleanup(w, id); w1.(objs := w1.objs - {id})
  }

  /** The new object changes nothing about the source of a copy, so the copy may be made exactly if the source is not null. */
  lemma CopySettable(w: World, w1: World, id: Id, rhs: Id, grant: Pointer)
    requires Inv(w) && Legal(w, CopyOf(id, rhs, grant)) && w1 == DefaultConstruct(w, id)
    ensures rhs in w1.objs && w1.objs[rhs] == w.objs[rhs]
    ensures Settable(w1, id, w.objs[rhs].count, PointerOf(w1, rhs), grant) <==> !w.objs[rhs].ptr.Null?
  {
    assert Sound(w.objs[rhs], Held(w, rhs));
  }

  /** Assignment never reads the block it is about to free, as blocks are not shared: it may be made exactly if the source is not null. */
  lemma AssignSettable(w: World, id: Id, rhs: Id, grant: Pointer)
    requires Inv(w) && Legal(w, Assign(id, rhs, grant)) && id != rhs
    ensures Settable(w, id, w.objs[rhs].count, PointerOf(w, rhs), grant) <==> !w.objs[rhs].ptr.Null?
  {
    assert Sound(w.objs[rhs], Held(w, rhs)) && Sound(w.objs[id], Held(w, id));
    if w.objs[id].ptr.Block? {
      assert Owns(w, id, w.objs[id].ptr.addr);
      assert w.objs[rhs].ptr.Block? ==> Owns(w, rhs, w.objs[rhs].ptr.addr);
    }
  }

  // ---- what every operation keeps ----

  /** All blocks accounted for, except that object id may be anything that holds no block. */
  ghost predicate InvExcept(w: World, id: Id) {
    && id in w.objs && w.objs[id].ptr.Inline? && |w.objs[id].buf| == BUF_SIZE
    && (forall i :: i in w.objs && i != id ==> Sound(w.objs[i], Held(w, i)))
    && (forall i, addr :: Owns(w, i, addr) ==> addr in w.heap)
    && (forall i, j, addr :: Owns(w, i, addr) && Owns(w, j, addr) ==> i == j)
    && (forall addr :: addr in w.heap ==> exists i :: Owns(w, i, addr))
  }

  /** Objects other than id are as they were, contents included. */
  ghost predicate Undisturbed(w: World, id: Id, w': World) {
    && w'.objs.Keys == w.objs.Keys
    && forall i :: i in w.objs && i != id ==> w'.objs[i] == w.objs[i] && Held(w', i) == Held(w, i)
  }

  lemma CleanupKeeps(w: World, id: Id)
    requires id in w.objs && (Inv(w) || InvExcept(w, id))
    ensures InvExcept(Cleanup(w, id), id) && Undisturbed(w, id, Cleanup(w, id))
  {
    var w1 := Cleanup(w, id);
    forall i | i in w.objs && i != id ensures Held(w1, i) == Held(w, i) && Sound(w1.objs[i], Held(w1, i)) {
      if w.objs[i].ptr.Block? {
        assert Owns(w, i, w.objs[i].ptr.addr);
        assert w.objs[id].ptr.Block? ==> Owns(w, id, w.objs[id].ptr.addr);
      }
    }
    forall i, addr | Owns(w1, i, addr) ensures Owns(w, i, addr) && addr in w1.heap {
      assert i != id && Owns(w, i, addr);
      assert w.objs[id].ptr.Block? ==> Owns(w, id, w.objs[id].ptr.addr);
    }
    forall addr | addr in w1.heap ensures exists i :: Owns(w1, i, addr) {
      var i :| Owns(w, i, addr);
      assert Owns(w1, i, addr);
    }
  }

  /** Completing object id without a block of its own. */
  lemma InstallPlain(w: World, id: Id, o: Scales)
    requires InvExcept(w, id) && !o.ptr.Block? && Sound(o, if o.ptr.Inline? then o.buf else [])
    ensures var w' := w.(objs := w.objs[id := o]);
      Inv(w') && forall i :: i in w.objs && i != id ==> Held(w', i) == Held(w, i)
  {
    var w' := w.(objs := w.objs[id := o]);
    assert Held(w', id) == if o.ptr.Inline? then o.buf else [];
    forall i, addr | Owns(w', i, addr) ensures Owns(w, i, addr) {
    }
    forall addr | addr in w'.heap ensures exists i :: Owns(w', i, addr) {
      var i :| Owns(w, i, addr);
      assert Owns(w', i, addr);
    }
  }

  /** Completing object id with a block that was not in use. */
  lemma InstallBlock(w: World, id: Id, o: Scales, cells: seq<Cell>)
    requires InvExcept(w, id) && o.ptr.Block? && o.ptr.addr !in w.heap && Sound(o, cells)
    ensures var w' := World(w.objs[id := o], w.heap[o.ptr.addr := cells]);
      Inv(w') && forall i :: i in w.objs && i != id ==> Held(w', i) == Held(w, i)
  {
    var w' := World(w.objs[id := o], w.heap[o.ptr.addr := cells]);
    forall i | i in w.objs && i != id ensures Held(w', i) == Held(w, i) {
      if w.objs[i].ptr.Block? {
        assert Owns(w, i, w.objs[i].ptr.addr);
      }
    }
    assert Held(w', id) == cells;
    forall i, addr | Owns(w', i, addr) && i != id ensures Owns(w, i, addr) && addr != o.ptr.addr {
      assert Owns(w, i, addr);
    }
    forall addr | addr in w'.heap ensures exists i :: Owns(w', i, addr) {
      if addr == o.ptr.addr {
        assert Owns(w', id, addr);
      } else {
        var i :| Owns(w, i, addr);
        assert Owns(w', i, addr);
      }
    }
  }

  /** What set leaves in its target. */
  lemma SetResult(w: World, id: Id, count: nat, mask: int, src: Source, grant: Pointer)
    requires Settable(w, id, count, src, grant)
    ensures var (w', ok) := Set(w, id, count, mask, src, grant); var cells, o := Cells(w, src), w'.objs[id];
      && o.count == count && o.mask == mask && Sound(o, Held(w', id))
      && (cells[0] == Word(RUNTIME) || count == 1 ==> ok && o.ptr.Inline? && Held(w', id)[0] == cells[0])
      && (cells[0] != Word(RUNTIME) && count == 1 ==> forall k :: 0 <= k < 16 ==> Held(w', id)[k] == cells[0])
      && (cells[0] != Word(RUNTIME) && count > 1 && grant.Block? ==> ok && o.ptr == grant && Held(w', id) == cells[..count])
      && (cells[0] != Word(RUNTIME) && count > 1 && grant.Null? ==> !ok && o.ptr.Null?)
  {
    SourceSurvives(w, id, count, src, grant);
  }

  /** The world set makes of a cleaned-up one: object id completed, with a block if it has one. */
  ghost predicate Completed(w: World, id: Id, w': World) {
    && id in w'.objs && w'.objs == w.objs[id := w'.objs[id]] && Sound(w'.objs[id], Held(w', id))
    && match w'.objs[id].ptr
       case Block(addr) => addr !in w.heap && w'.heap == w.heap[addr := Held(w', id)]
       case _ => w'.heap == w.heap
  }

  lemma CompletedKeeps(w: World, id: Id, w': World)
    requires InvExcept(w, id) && Completed(w, id, w')
    ensures Inv(w') && Undisturbed(w, id, w')
  {
    var o := w'.objs[id];
    if o.ptr.Block? {
      InstallBlock(w, id, o, Held(w', id));
      assert w' == World(w.objs[id := o], w.heap[o.ptr.addr := Held(w', id)]);
    } else {
      InstallPlain(w, id, o);
      assert w' == w.(objs := w.objs[id := o]);
    }
  }

  lemma SetCompletes(w: World, id: Id, count: nat, mask: int, src: Source, grant: Pointer)
    requires Settable(w, id, count, src, grant)
    ensures Completed(Cleanup(w, id), id, Set(w, id, count, mask, src, grant).0)
  {
    SetResult(w, id, count, mask, src, grant);
    SourceSurvives(w, id, count, src, grant);
  }

  /** set keeps the invariant, whether or not memory suffices, and disturbs no other object. */
  lemma SetKeeps(w: World, id: Id, count: nat, mask: int, src: Source, grant: Pointer)
    requires Settable(w, id, count, src, grant) && (Inv(w) || InvExcept(w, id))
    ensures Inv(Set(w, id, count, mask, src, grant).0)
    ensures Undisturbed(w, id, Set(w, id, count, mask, src, grant).0)
  {
    CleanupKeeps(w, id);
    SetCompletes(w, id, count, mask, src, grant);
    CompletedKeeps(Cleanup(w, id), id, Set(w, id, count, mask, src, grant).0);
  }

  lemma DefaultKeeps(w: World, id: Id)
    requires Inv(w) && id !in w.objs
    ensures InvExcept(Declare(w, id), id)
    ensures Inv(DefaultConstruct(w, id)) && DefaultConstruct(w, id).heap == w.heap
    ensures forall i :: i in w.objs ==> DefaultConstruct(w, id).objs[i] == w.objs[i]
  {
    DeclareKeeps(w, id);
    SetKeeps(Declare(w, id), id, 1, 0, User([Word(ONE)]), Null);
  }

  lemma DeclareKeeps(w: World, id: Id)
    requires Inv(w) && id !in w.objs
    ensures InvExcept(Declare(w, id), id)
  {
    var w1 := Declare(w, id);
    forall i | i in w1.objs && i != id ensures Held(w1, i) == Held(w, i) {
    }
    forall i, addr | Owns(w1, i, addr) ensures Owns(w, i, addr) {
    }
    forall addr | addr in w1.heap ensures exists i :: Owns(w1, i, addr) {
      var i :| Owns(w, i, addr);
      assert Owns(w1, i, addr);
    }
  }

  lemma DestroyKeeps(w: World, id: Id)
    requires Inv(w) && id in w.objs
    ensures Inv(Step(w, Destroy(id)))
  {
    CleanupKeeps(w, id);
    RemoveKeeps(Cleanup(w, id), id);
  }

  /** An object without a block can be dropped. */
  lemma RemoveKeeps(w: World, id: Id)
    requires InvExcept(w, id)
    ensures Inv(w.(objs := w.objs - {id}))
  {
    var w' := w.(objs := w.objs - {id});
    forall i | i in w'.objs ensures Sound(w'.objs[i], Held(w', i)) {
      assert Held(w', i) == Held(w, i);
    }
    forall i, addr | Owns(w', i, addr) ensures Owns(w, i, addr) {
    }
    forall addr | addr in w'.heap ensures exists i :: Owns(w', i, addr) {
      var i :| Owns(w, i, addr);
      assert Owns(w', i, addr);
    }
  }

  lemma BegunKeeps(w: World, id: Id, count: nat, mask: int)
    requires Inv(w) && id in w.objs
    ensures InvExcept(Begun(w, id, count, mask), id)
  {
    CleanupKeeps(w, id);
    Relabel(Cleanup(w, id), id, count, mask);
  }

  lemma Relabel(w: World, id: Id, count: nat, mask: int)
    requires InvExcept(w, id)
    ensures InvExcept(w.(objs := w.objs[id := w.objs[id].(count := count, mask := mask)]), id)
  {
    var w' := w.(objs := w.objs[id := w.objs[id].(count := count, mask := mask)]);
    forall i | i in w.objs && i != id ensures Held(w', i) == Held(w, i) {
    }
    forall i, addr ensures Owns(w', i, addr) <==> Owns(w, i, addr) {
    }
  }

  /**
   Every legal operation keeps every object sound and every block owned exactly once.  Where it
   reads through null, that still holds of every block and of every object but its own.
   */
  lemma StepKeeps(w: World, op: Op)
    requires Inv(w) && Legal(w, op)
    ensures !NullSource(w, op) ==> Inv(Step(w, op))
    ensures NullSource(w, op) ==> InvExcept(Step(w, op), op.id)
  {
    match op
    case Default(id) => DefaultKeeps(w, id);
    case FromArguments(id, count, mask, src, grant) =>
      DeclareKeeps(w, id);
      SetKeeps(Declare(w, id), id, count, mask, src, grant);
    case CopyOf(id, rhs, grant) => CopyKeeps(w, id, rhs, grant);
    case Reset(id, count, mask, src, grant) => SetKeeps(w, id, count, mask, src, grant);
    case Assign(id, rhs, grant) => AssignKeeps(w, id, rhs, grant);
    case Destroy(id) => DestroyKeeps(w, id);
  }

  lemma CopyKeeps(w: World, id: Id, rhs: Id, grant: Pointer)
    requires Inv(w) && Legal(w, CopyOf(id, rhs, grant))
    ensures !w.objs[rhs].ptr.Null? ==> Inv(Step(w, CopyOf(id, rhs, grant)))
    ensures w.objs[rhs].ptr.Null? ==> InvExcept(Step(w, CopyOf(id, rhs, grant)), id)
  {
    DefaultKeeps(w, id);
    var w1, o := DefaultConstruct(w, id), w.objs[rhs];
    CopySettable(w, w1, id, rhs, grant);
    if o.ptr.Null? {
      BegunKeeps(w1, id, o.count, o.mask);
    } else {
      SetKeeps(w1, id, o.count, o.mask, PointerOf(w1, rhs), grant);
    }
  }

  lemma AssignKeeps(w: World, id: Id, rhs: Id, grant: Pointer)
    requires Inv(w) && Legal(w, Assign(id, rhs, grant))
    ensures !NullSource(w, Assign(id, rhs, grant)) ==> Inv(Step(w, Assign(id, rhs, grant)))
    ensures NullSource(w, Assign(id, rhs, grant)) ==> InvExcept(Step(w, Assign(id, rhs, grant)), id)
  {
    var o := w.objs[rhs];
    if id != rhs {
      AssignSettable(w, id, rhs, grant);
      if o.ptr.Null? {
        BegunKeeps(w, id, o.count, o.mask);
      } else {
        SetKeeps(w, id, o.count, o.mask, PointerOf(w, rhs), grant);
      }
    }
  }

  // ---- runs ----

  /** The program ends in this operation: by reading a null source or, with the reports compiled in, by a report that reads through null. */
  ghost predicate Stops(w: World, op: Op, reports: bool)
    requires Inv(w) && Legal(w, op)
  {
    NullSource(w, op) || (reports && Refused(w, op))
  }

  /** A run of operations, each legal where it happens, to its end or to the operation in which the program crashes. */
  ghost predicate Run(w: World, ops: seq<Op>, w': World, reports: bool, crashed: bool)
    requires Inv(w)
    decreases ops
  {
    if |ops| == 0 then w' == w && !crashed
    else
      && Legal(w, ops[0])
      && if Stops(w, ops[0], reports) then crashed && w' == Step(w, ops[0])
         else (StepKeeps(w, ops[0]); Run(Step(w, ops[0]), ops[1..], w', reports, crashed))
  }

  /** Every block is owned by exactly one object, and by an object that exists. */
  ghost predicate BlocksOwnedOnce(w: World) {
    && (forall id, addr :: Owns(w, id, addr) ==> addr in w.heap)
    && (forall i, j, addr :: Owns(w, i, addr) && Owns(w, j, addr) ==> i == j)
    && (forall addr :: addr in w.heap ==> exists id :: Owns(w, id, addr))
  }

  /**
   Over any run, whatever it does with objects that have lost their scales, blocks are never
   shared, dangling or leaked, even where the program crashes; if it does not, every object is
   sound, and nothing is left on the heap once every object has been destroyed.
   */
  lemma {:induction false} RunIsSafe(w: World, ops: seq<Op>, w': World, reports: bool, crashed: bool)
    requires Inv(w) && Run(w, ops, w', reports, crashed)
    ensures BlocksOwnedOnce(w')
    ensures !crashed ==> Inv(w') && (w'.objs == map[] ==> w'.heap == map[])
    decreases ops
  {
    if |ops| == 0 {
      if w'.objs == map[] {
        assert forall i, addr :: !Owns(w', i, addr);
        assert w'.heap.Keys == {};
      }
    } else {
      StepKeeps(w, ops[0]);
      if !Stops(w, ops[0], reports) {
        RunIsSafe(Step(w, ops[0]), ops[1..], w', reports, crashed);
      }
    }
  }

  /** A run crashes exactly if some operation, reached by those before it, stops. */
  lemma {:induction false} RunCrashes(w: World, ops: seq<Op>, w': World, reports: bool, crashed: bool) returns (k: nat, at: World)
    requires Inv(w) && Run(w, ops, w', reports, crashed)
    ensures k <= |ops| && Inv(at) && Run(w, ops[..k], at, reports, false)
    ensures crashed ==> k < |ops| && Legal(at, ops[k]) && Stops(at, ops[k], reports)
    ensures !crashed ==> k == |ops|
    decreases ops
  {
    if |ops| == 0 || Stops(w, ops[0], reports) {
      k, at := 0, w;
    } else {
      StepKeeps(w, ops[0]);
      var n, end := RunCrashes(Step(w, ops[0]), ops[1..], w', reports, crashed);
      k, at := n + 1, end;
      assert ops[..k][1..] == ops[1..][..n];
    }
  }

  /** Handing an object its own block is the one source that must be excluded: set frees it before reading. */
  lemma OwnBlockIsGone(w: World, id: Id, addr: Addr)
    requires Inv(w) && Owns(w, id, addr)
    ensures Readable(Cells(w, Heap(addr)), w.objs[id].count)
    ensures !Readable(Cells(Cleanup(w, id), Heap(addr)), 1)
  {
    assert Sound(w.objs[id], Held(w, id));
  }

  // ---- what an object means ----

  datatype Meaning =
    | Unusable  // out of memory
    | AtRuntime(count: nat, mask: int)
    | Known(count: nat, mask: int, scales: seq<nat>)

  function Bits(cells: seq<Cell>, n: nat): (b: seq<nat>)
    requires Readable(cells, n)
    ensures |b| == n
  {
    seq(n, i requires 0 <= i < n => cells[i].bits)
  }

  function MeaningOf(w: World, id: Id): Meaning
    requires id in w.objs && Sound(w.objs[id], Held(w, id))
  {
    var o, held := w.objs[id], Held(w, id);
    if o.ptr.Null? then Unusable
    else if held[0] == Word(RUNTIME) then AtRuntime(o.count, o.mask)
    else Known(o.count, o.mask, Bits(held, o.count))
  }

  function SourceMeaning(w: World, count: nat, mask: int, src: Source): Meaning
    requires Readable(Cells(w, src), 1) && (Cells(w, src)[0] != Word(RUNTIME) ==> Readable(Cells(w, src), count))
  {
    if Cells(w, src)[0] == Word(RUNTIME) then AtRuntime(count, mask)
    else Known(count, mask, Bits(Cells(w, src), count))
  }

  /** Storing this takes a block, and malloc refuses it. */
  predicate OutOfMemory(m: Meaning, grant: Pointer) {
    m.Known? && m.count > 1 && grant.Null?
  }

  /**
   A set that reports success makes the object mean exactly its arguments, whatever state
   it was in before, an earlier failed allocation included.  It fails exactly when more than
   one known scale is to be stored and malloc refuses.
   */
  lemma SetMeans(w: World, id: Id, count: nat, mask: int, src: Source, grant: Pointer)
    requires Settable(w, id, count, src, grant)
    ensures var (w', ok) := Set(w, id, count, mask, src, grant);
      && Sound(w'.objs[id], Held(w', id))
      && (ok <==> !OutOfMemory(SourceMeaning(w, count, mask, src), grant))
      && MeaningOf(w', id) == if ok then SourceMeaning(w, count, mask, src) else Unusable
  {
    SetResult(w, id, count, mask, src, grant);
  }

  // ---- equality ----

  ghost predicate AllEqual(a: seq<nat>, b: seq<nat>)
    requires |a| == |b|
  {
    forall i :: 0 <= i < |a| ==> FloatEq(a[i], b[i])
  }

  /** operator== on meanings. */
  ghost predicate Equal(a: Meaning, b: Meaning) {
    match (a, b)
    case (AtRuntime(c, m), AtRuntime(d, n)) => c == d && m == n
    case (Known(c, m, x), Known(d, n, y)) => c == d && m == n && |x| == |y| && AllEqual(x, y)
    case _ => false
  }

  lemma EqualIsSymmetricAndTransitive(a: Meaning, b: Meaning, c: Meaning)
    ensures Equal(a, b) <==> Equal(b, a)
    ensures Equal(a, b) && Equal(b, c) ==> Equal(a, c)
  {
  }

  /** What a copy can be relied on to equal: anything but an object holding a NaN among its scales. */
  lemma SelfEqual(a: Meaning)
    ensures Equal(a, a) <==> a.AtRuntime? || (a.Known? && forall i :: 0 <= i < |a.scales| ==> !IsNaN(a.scales[i]))
  {
    if a.Known? && forall i :: 0 <= i < |a.scales| ==> !IsNaN(a.scales[i]) {
      assert AllEqual(a.scales, a.scales);
    }
    if Equal(a, a) && a.Known? {
      forall i | 0 <= i < |a.scales| ensures !IsNaN(a.scales[i]) {
        assert FloatEq(a.scales[i], a.scales[i]);
      }
    }
  }

  /** Assignment from a source that is not null makes the target mean what the source means, unless memory is refused; the source keeps its meaning. */
  lemma AssignMeans(w: World, id: Id, rhs: Id, grant: Pointer)
    requires Inv(w) && id != rhs && Legal(w, Assign(id, rhs, grant))
    ensures !w.objs[rhs].ptr.Null? ==> var w' := Step(w, Assign(id, rhs, grant)); Transferred(w, w', id, rhs, grant)
  {
    AssignSettable(w, id, rhs, grant);
    if !w.objs[rhs].ptr.Null? {
      SetAsAssign(w, id, rhs, grant);
    }
  }

  ghost predicate Transferred(w: World, w': World, id: Id, rhs: Id, grant: Pointer)
    requires Inv(w) && rhs in w.objs
  {
    && Inv(w') && rhs in w'.objs && id in w'.objs && MeaningOf(w', rhs) == MeaningOf(w, rhs)
    && MeaningOf(w', id) == if OutOfMemory(MeaningOf(w, rhs), grant) then Unusable else MeaningOf(w, rhs)
  }

  /** So does the copy constructor. */
  lemma CopyMeans(w: World, id: Id, rhs: Id, grant: Pointer)
    requires Inv(w) && Legal(w, CopyOf(id, rhs, grant))
    ensures !w.objs[rhs].ptr.Null? ==> var w' := Step(w, CopyOf(id, rhs, grant)); Transferred(w, w', id, rhs, grant)
  {
    DefaultKeeps(w, id);
    var w1 := DefaultConstruct(w, id);
    CopySettable(w, w1, id, rhs, grant);
    if !w.objs[rhs].ptr.Null? {
      assert Held(w1, rhs) == Held(w, rhs);
      SetAsAssign(w1, id, rhs, grant);
    }
  }

  lemma SetAsAssign(w: World, id: Id, rhs: Id, grant: Pointer)
    requires Inv(w) && id in w.objs && rhs in w.objs && id != rhs && !w.objs[rhs].ptr.Null?
    requires Settable(w, id, w.objs[rhs].count, PointerOf(w, rhs), grant)
    ensures var w' := Set(w, id, w.objs[rhs].count, w.objs[rhs].mask, PointerOf(w, rhs), grant).0;
      && Inv(w') && rhs in w'.objs && id in w'.objs && MeaningOf(w', rhs) == MeaningOf(w, rhs)
      && MeaningOf(w', id) == if OutOfMemory(MeaningOf(w, rhs), grant) then Unusable else MeaningOf(w, rhs)
  {
    var o := w.objs[rhs];
    assert Sound(o, Held(w, rhs));
    SetMeans(w, id, o.count, o.mask, PointerOf(w, rhs), grant);
    SetKeeps(w, id, o.count, o.mask, PointerOf(w, rhs), grant);
  }

  /** A copy that is made equals its source exactly if there was memory for it and the source is the sentinel or holds no NaN. */
  lemma CopyEquals(w: World, id: Id, rhs: Id, grant: Pointer)
    requires Inv(w) && Legal(w, CopyOf(id, rhs, grant))
    ensures !w.objs[rhs].ptr.Null? ==> var w', m := Step(w, CopyOf(id, rhs, grant)), MeaningOf(w, rhs);
      && Transferred(w, w', id, rhs, grant)
      && (Equal(MeaningOf(w', id), MeaningOf(w', rhs)) <==>
           !OutOfMemory(m, grant) && (m.AtRuntime? || forall i :: 0 <= i < |m.scales| ==> !IsNaN(m.scales[i])))
  {
    CopyMeans(w, id, rhs, grant);
    SelfEqual(MeaningOf(w, rhs));
  }

  // ---- the report at the end of an operation ----

  /** The operations that end with a report, which reads scales_[0] and asks for default values; self-assignment does not get there. */
  predicate Reports(op: Op) {
    match op
    case Default(_) => true
    case FromArguments(_, _, _, _, _) => true
    case CopyOf(_, _, _) => true
    case Assign(id, rhs, _) => id != rhs
    case _ => false
  }

  /** The report has nothing to read: the set before it ran out of memory. */
  predicate Refused(w: World, op: Op)
    requires Inv(w) && Legal(w, op)
  {
    match op
    case FromArguments(_, count, mask, src, grant) => OutOfMemory(SourceMeaning(w, count, mask, src), grant)
    case CopyOf(_, rhs, grant) => OutOfMemory(MeaningOf(w, rhs), grant)
    case Assign(id, rhs, grant) => id != rhs && OutOfMemory(MeaningOf(w, rhs), grant)
    case _ => false
  }

  /** The two reads through null: of a source, at the head of set, and in the report. */
  predicate Faults(w: World, op: Op)
    requires Inv(w) && Legal(w, op)
  {
    NullSource(w, op) || Refused(w, op)
  }

  ghost predicate AllOnes(m: Meaning) {
    m.Known? && forall c :: 0 <= c < |m.scales| ==> FloatEq(m.scales[c], ONE)
  }

  /**
   An object has lost its scales exactly if its pointer is null, and exactly then defined,
   has_default_values, a report or a copy would read a cell that is not there.
   */
  lemma UnusableIsNull(w: World, id: Id)
    requires Inv(w) && id in w.objs
    ensures Sound(w.objs[id], Held(w, id))
    ensures MeaningOf(w, id).Unusable? <==> w.objs[id].ptr.Null?
    ensures MeaningOf(w, id).Unusable? <==> !Readable(Held(w, id), 1)
  {
    assert Sound(w.objs[id], Held(w, id));
  }

  /** A reporting operation that gets past its source leaves its object unusable exactly if it ran out of memory. */
  lemma RefusedIsUnusable(w: World, op: Op)
    requires Inv(w) && Legal(w, op) && Reports(op) && !NullSource(w, op)
    ensures Inv(Step(w, op)) && op.id in Step(w, op).objs
    ensures Refused(w, op) <==> MeaningOf(Step(w, op), op.id).Unusable?
  {
    StepKeeps(w, op);
    match op
    case Default(id) => DefaultMeans(w, id);
    case FromArguments(id, count, mask, src, grant) =>
      SetMeans(Declare(w, id), id, count, mask, src, grant);
      FromArgumentsReads(w, id, count, mask, src, grant);
    case CopyOf(id, rhs, grant) => CopyMeans(w, id, rhs, grant);
    case Assign(id, rhs, grant) => AssignMeans(w, id, rhs, grant);
  }

  lemma FromArgumentsReads(w: World, id: Id, count: nat, mask: int, src: Source, grant: Pointer)
    requires Legal(w, FromArguments(id, count, mask, src, grant))
    ensures Cells(Declare(w, id), src) == Cells(w, src)
  {
  }

  /**
   A copy or an assignment reads a live initialised cell of its source exactly if the source is not
   null.  If it gets past that, its report, like that of any constructor, reads a live initialised
   cell exactly if the operation did not run out of memory; else it reads through null.
   */
  lemma ReportIsSafe(w: World, op: Op)
    requires Inv(w) && Legal(w, op) && Reports(op)
    ensures op.CopyOf? || op.Assign? ==> (NullSource(w, op) <==> !Readable(Held(w, op.rhs), 1))
    ensures !NullSource(w, op) ==> Inv(Step(w, op)) && op.id in Step(w, op).objs
    ensures !NullSource(w, op) ==> (Refused(w, op) <==> Step(w, op).objs[op.id].ptr.Null?)
    ensures !NullSource(w, op) ==> (Refused(w, op) <==> !Readable(Held(Step(w, op), op.id), 1))
  {
    if op.CopyOf? || op.Assign? {
      UnusableIsNull(w, op.rhs);
    }
    if !NullSource(w, op) {
      RefusedIsUnusable(w, op);
      UnusableIsNull(Step(w, op), op.id);
    }
  }

  /** The default constructor's assertions hold: one defined scale of 1.0. */
  lemma DefaultMeans(w: World, id: Id)
    requires Inv(w) && id !in w.objs
    ensures Inv(DefaultConstruct(w, id)) && MeaningOf(DefaultConstruct(w, id), id) == Known(1, 0, [ONE])
  {
    DefaultKeeps(w, id);
    SetMeans(Declare(w, id), id, 1, 0, User([Word(ONE)]), Null);
  }

  /** Two scales and no memory: the constructor's report reads through null. */
  lemma ReportExample()
    ensures var w, op := World(map[], map[]), FromArguments(0, 2, 0, User([Word(ONE), Word(ONE)]), Null);
      Inv(w) && Legal(w, op) && Refused(w, op) && Step(w, op).objs[0].ptr.Null?
  {
    var w, op := World(map[], map[]), FromArguments(0, 2, 0, User([Word(ONE), Word(ONE)]), Null);
    ReportIsSafe(w, op);
  }

  // ---- the same in terms of cells ----

  /** The first n cells are there and hold 1. */
  ghost predicate OnlyOnes(held: seq<Cell>, n: nat) {
    Readable(held, n) && forall k :: 0 <= k < n ==> FloatEq(held[k].bits, ONE)
  }

  lemma AllOnesAre(w: World, id: Id)
    requires Inv(w) && id in w.objs
    ensures Sound(w.objs[id], Held(w, id))
    ensures AllOnes(MeaningOf(w, id)) <==> OnlyOnes(Held(w, id), w.objs[id].count)
  {
    var o, held := w.objs[id], Held(w, id);
    assert Sound(o, held);
    if OnlyOnes(held, o.count) { assert FloatEq(held[0].bits, ONE); }
    if AllOnes(MeaningOf(w, id)) {
      forall k | 0 <= k < o.count ensures FloatEq(held[k].bits, ONE) {
        assert MeaningOf(w, id).scales[k] == held[k].bits;
      }
    }
  }

  /** operator== in terms of what the two objects hold: count and mask, both pointers, both or neither the sentinel, every scale. */
  ghost predicate SameScales(a: Scales, x: seq<Cell>, b: Scales, y: seq<Cell>) {
    && a.count == b.count && a.mask == b.mask && !a.ptr.Null? && !b.ptr.Null? && |x| > 0 && |y| > 0
    && (x[0] == Word(RUNTIME) <==> y[0] == Word(RUNTIME))
    && (x[0] == Word(RUNTIME) ||
         (Readable(x, a.count) && Readable(y, a.count) && forall k :: 0 <= k < a.count ==> FloatEq(x[k].bits, y[k].bits)))
  }

  lemma EqualAre(w: World, i: Id, j: Id)
    requires Inv(w) && i in w.objs && j in w.objs
    ensures Sound(w.objs[i], Held(w, i)) && Sound(w.objs[j], Held(w, j))
    ensures Equal(MeaningOf(w, i), MeaningOf(w, j)) <==> SameScales(w.objs[i], Held(w, i), w.objs[j], Held(w, j))
  {
    assert Sound(w.objs[i], Held(w, i)) && Sound(w.objs[j], Held(w, j));
    var a, b := MeaningOf(w, i), MeaningOf(w, j);
    if a.Known? && b.Known? && a.count == b.count {
      assert AllEqual(a.scales, b.scales) <==>
        forall k :: 0 <= k < a.count ==> FloatEq(Held(w, i)[k].bits, Held(w, j)[k].bits) by {
        forall k | 0 <= k < a.count ensures a.scales[k] == Held(w, i)[k].bits && b.scales[k] == Held(w, j)[k].bits {}
      }
    }
  }

  /** What an object holds: its own buffer, its block, or nothing. */
  lemma HeldIs(w: World, id: Id)
    requires Inv(w) && id in w.objs
    ensures w.objs[id].ptr.Null? ==> Held(w, id) == []
    ensures w.objs[id].ptr.Inline? ==> Held(w, id) == w.objs[id].buf && |w.objs[id].buf| == 16
    ensures w.objs[id].ptr.Block? ==> w.objs[id].ptr.addr in w.heap && Held(w, id) == w.heap[w.objs[id].ptr.addr]
  {
    assert Sound(w.objs[id], Held(w, id));
    if w.objs[id].ptr.Block? { assert Owns(w, id, w.objs[id].ptr.addr); }
  }

  /** The sentinel is a NaN, and the default scale stands for one. */
  lemma ConstantsAre()
    ensures RUNTIME == 0x7fc000d0 && IsNaN(RUNTIME) && IsFinite(ONE) && Number(ONE) == 1.0
  {
    InvSqrt.ValueOne(InvSqrt.SINGLE);
  }

  /** The objects and the heap as the code changes them. */
  class Memory {
    var objs: map<Id, Scales>
    var heap: map<Addr, seq<Cell>>

    ghost function Now(): World
      reads this
    {
      World(objs, heap)
    }

    constructor ()
      ensures Now() == World(map[], map[]) && Inv(Now())
    {
      objs, heap := map[], map[];
    }

    /** Only a live block may be freed, so none is freed twice. */
    method Release(addr: Addr)
      requires addr in heap
      modifies this`heap
      ensures Now() == Free(old(Now()), addr)
    {
      heap := heap - {addr};
    }

    /** A read through a pointer: the cell has to be live and initialised. */
    method Load(src: Source, i: nat) returns (bits: nat)
      requires i < |Cells(Now(), src)| && Cells(Now(), src)[i].Word?
      ensures Cells(Now(), src)[i] == Word(bits)
    {
      match src
      case User(cells) => bits := cells[i].bits;
      case BufferOf(owner) => bits := objs[owner].buf[i].bits;
      case Heap(addr) => bits := heap[addr][i].bits;
    }

    method CleanUp(id: Id)
      requires id in objs && (objs[id].ptr.Block? ==> objs[id].ptr.addr in heap)
      modifies this
      ensures Now() == Cleanup(old(Now()), id)
    {
      if objs[id].ptr.Block? {
        Release(objs[id].ptr.addr);
      }
      objs := objs[id := objs[id].(count := 1, mask := 0, ptr := Inline)];
    }

    /** array_set over the inline buffer; the value is read through its reference every time. */
    method FillBuffer(id: Id, src: Source, ghost value: Cell)
      requires id in objs && |objs[id].buf| == BUF_SIZE && value.Word?
      requires |Cells(Now(), src)| > 0 && Cells(Now(), src)[0] == value
      modifies this`objs
      ensures objs == old(objs)[id := old(objs)[id].(buf := Filled(value))]
    {
      for i := 0 to BUF_SIZE
        invariant id in objs && |objs[id].buf| == BUF_SIZE
        invariant objs == old(objs)[id := old(objs)[id].(buf := objs[id].buf)]
        invariant forall k :: 0 <= k < i ==> objs[id].buf[k] == value
        invariant forall k :: i <= k < BUF_SIZE ==> objs[id].buf[k] == old(objs)[id].buf[k]
        invariant |Cells(Now(), src)| > 0 && Cells(Now(), src)[0] == value
      {
        var x := Load(src, 0);
        objs := objs[id := objs[id].(buf := objs[id].buf[i := Word(x)])];
      }
      assert objs[id].buf == Filled(value);
    }

    /** The copy loop into a block just allocated. */
    method FillBlock(addr: Addr, count: nat, src: Source)
      requires addr !in heap && src != Heap(addr) && Readable(Cells(Now(), src), count)
      modifies this`heap
      ensures heap == old(heap)[addr := Cells(old(Now()), src)[..count]]
    {
      heap := heap[addr := seq(count, _ => Uninit)];
      for c := 0 to count
        invariant addr in heap && heap == old(heap)[addr := heap[addr]] && |heap[addr]| == count
        invariant forall k :: 0 <= k < c ==> heap[addr][k] == Cells(old(Now()), src)[k]
        invariant Cells(Now(), src) == Cells(old(Now()), src)
      {
        var x := Load(src, c);
        heap := heap[addr := heap[addr][c := Word(x)]];
      }
      assert heap[addr] == Cells(old(Now()), src)[..count];
    }

    method StoreScales(id: Id, count: nat, mask: int, src: Source, grant: Pointer) returns (ok: bool)
      requires id in objs && |objs[id].buf| == BUF_SIZE
      requires Readable(Cells(Now(), src), 1)
      requires Cells(Now(), src)[0] != Word(RUNTIME) ==> Readable(Cells(Now(), src), count)
      requires !grant.Inline? && (grant.Block? ==> grant.addr !in heap)
      modifies this
      ensures (Now(), ok) == Store(old(Now()), id, count, mask, src, grant)
    {
      objs := objs[id := objs[id].(count := count, mask := mask)];
      assert Cells(Now(), src) == Cells(old(Now()), src);
      var first := Load(src, 0);
      if first == RUNTIME {
        objs := objs[id := objs[id].(buf := objs[id].buf[0 := Word(first)])];
        ok := true;
      } else if count == 1 {
        FillBuffer(id, src, Word(first));
        ok := true;
      } else {
        ok := StoreBlock(id, count, src, grant);
      }
      assert objs == Store(old(Now()), id, count, mask, src, grant).0.objs;
    }

    /** malloc and the copy loop, or out of memory. */
    method StoreBlock(id: Id, count: nat, src: Source, grant: Pointer) returns (ok: bool)
      requires id in objs && Readable(Cells(Now(), src), count) && (grant.Block? ==> grant.addr !in heap)
      requires !grant.Inline? && |Cells(Now(), src)| > 0
      modifies this
      ensures ok == grant.Block? && objs == old(objs)[id := old(objs)[id].(ptr := grant)]
      ensures heap == if ok then old(heap)[grant.addr := Cells(old(Now()), src)[..count]] else old(heap)
    {
      objs := objs[id := objs[id].(ptr := grant)];
      ok := grant.Block?;
      assert Cells(Now(), src) == Cells(old(Now()), src);
      if ok {
        FillBlock(grant.addr, count, src);
      }
    }

    /** set: frees what the object held, then stores inline or in a block of its own. */
    method SetScales(id: Id, count: nat, mask: int, src: Source, grant: Pointer) returns (ok: bool)
      requires Settable(Now(), id, count, src, grant) && (objs[id].ptr.Block? ==> objs[id].ptr.addr in heap)
      modifies this
      ensures (Now(), ok) == Set(old(Now()), id, count, mask, src, grant)
    {
      SourceSurvives(Now(), id, count, src, grant);
      CleanUp(id);
      ok := StoreScales(id, count, mask, src, grant);
    }

    /** The constructor common to all: an object whose scales_ points at its own buffer. */
    method DeclareObject(id: Id)
      modifies this`objs
      ensures Now() == Declare(old(Now()), id)
    {
      objs := objs[id := Scales(1, 0, Inline, Filled(Uninit))];
    }

    /** The report: the first scale, read twice, and whether the object has default values. */
    method Report(id: Id) returns (first: nat, runtime: bool, defaults: bool)
      requires Inv(Now()) && id in objs && !objs[id].ptr.Null?
      ensures |Held(Now(), id)| > 0 && Held(Now(), id)[0] == Word(first)
      ensures (runtime <==> MeaningOf(Now(), id).AtRuntime?) && (defaults <==> AllOnes(MeaningOf(Now(), id)))
    {
      assert Sound(objs[id], Held(Now(), id));
      first := Load(PointerOf(World(objs, heap), id), 0);
      var known := Defined(id);
      runtime := !known;
      defaults := HasDefaultValues(id);
    }

    /**
     One operation of the state machine, carried out by the methods above.  It completes unless it
     reads through null: at the head of set, because the source has lost its scales, or in its
     report, because it ran out of memory (in operator= an assertion fails just before that).
     */
    method Perform(op: Op) returns (completed: bool)
      requires Inv(Now()) && Legal(Now(), op)
      modifies this
      ensures Now() == Step(old(Now()), op) && (completed ==> Inv(Now()))
      ensures completed <==> !Faults(old(Now()), op)
    {
      StepKeeps(Now(), op);
      if Reports(op) {
        ReportIsSafe(Now(), op);
      }
      completed := Change(op);
      if completed && Reports(op) {
        if objs[op.id].ptr.Null? {
          completed := false;
        } else {
          var first, runtime, defaults := Report(op.id);
        }
      }
    }

    /** set from another object's pointer: where that is null, it gets as far as reading it. */
    method SetFrom(id: Id, rhs: Id, grant: Pointer) returns (proceeds: bool)
      requires id in objs && rhs in objs && id != rhs && (objs[id].ptr.Block? ==> objs[id].ptr.addr in heap)
      requires !objs[rhs].ptr.Null? ==> Settable(Now(), id, objs[rhs].count, PointerOf(Now(), rhs), grant)
      modifies this
      ensures proceeds <==> !old(objs)[rhs].ptr.Null?
      ensures var o := old(objs)[rhs]; proceeds ==>
        Now() == Set(old(Now()), id, o.count, o.mask, PointerOf(old(Now()), rhs), grant).0
      ensures var o := old(objs)[rhs]; !proceeds ==> Now() == Begun(old(Now()), id, o.count, o.mask)
    {
      var o := objs[rhs];
      if o.ptr.Null? {
        CleanUp(id);
        objs := objs[id := objs[id].(count := o.count, mask := o.mask)];
        return false;
      }
      var ok := SetScales(id, o.count, o.mask, PointerOf(World(objs, heap), rhs), grant);
      return true;
    }

    /** The copy constructor delegates to the default constructor, report included, and then sets. */
    method CopyConstruct(id: Id, rhs: Id, grant: Pointer) returns (proceeds: bool)
      requires Inv(Now()) && Legal(Now(), CopyOf(id, rhs, grant))
      modifies this
      ensures Now() == Step(old(Now()), CopyOf(id, rhs, grant)) && (proceeds <==> !NullSource(old(Now()), CopyOf(id, rhs, grant)))
    {
      CopySettable(Now(), DefaultConstruct(Now(), id), id, rhs, grant);
      DefaultMeans(Now(), id);
      DeclareObject(id);
      var ok := SetScales(id, 1, 0, User([Word(ONE)]), Null);
      var first, runtime, defaults := Report(id);
      proceeds := SetFrom(id, rhs, grant);
    }

    /** What the operation changes, and whether it gets past reading its source. */
    method Change(op: Op) returns (proceeds: bool)
      requires Inv(Now()) && Legal(Now(), op)
      modifies this
      ensures Now() == Step(old(Now()), op) && (proceeds <==> !NullSource(old(Now()), op))
    {
      proceeds := true;
      match op
      case Default(id) =>
        DeclareObject(id);
        var ok := SetScales(id, 1, 0, User([Word(ONE)]), Null);
      case FromArguments(id, count, mask, src, grant) =>
        DeclareObject(id);
        var ok := SetScales(id, count, mask, src, grant);
      case CopyOf(id, rhs, grant) =>
        proceeds := CopyConstruct(id, rhs, grant);
      case Reset(id, count, mask, src, grant) =>
        assert objs[id].ptr.Block? ==> Owns(Now(), id, objs[id].ptr.addr);
        var ok := SetScales(id, count, mask, src, grant);
      case Assign(id, rhs, grant) =>
        if id != rhs {
          AssignSettable(Now(), id, rhs, grant);
          assert objs[id].ptr.Block? ==> Owns(Now(), id, objs[id].ptr.addr);
          proceeds := SetFrom(id, rhs, grant);
        }
      case Destroy(id) =>
        assert objs[id].ptr.Block? ==> Owns(Now(), id, objs[id].ptr.addr);
        CleanUp(id);
        objs := objs - {id};
    }

    /** defined: the first scale is not the sentinel. */
    method Defined(id: Id) returns (r: bool)
      requires Inv(Now()) && id in objs && !objs[id].ptr.Null?
      ensures r <==> MeaningOf(Now(), id).Known?
    {
      assert Sound(objs[id], Held(Now(), id));
      var first := Load(PointerOf(World(objs, heap), id), 0);
      r := first != RUNTIME;
    }

    /** has_default_values: it stops at the first scale that is not 1, so it never reads past the sentinel. */
    method HasDefaultValues(id: Id) returns (r: bool)
      requires Inv(Now()) && id in objs && !objs[id].ptr.Null?
      ensures r <==> AllOnes(MeaningOf(Now(), id))
      ensures r <==> OnlyOnes(Held(Now(), id), objs[id].count)
    {
      assert Sound(objs[id], Held(Now(), id));
      AllOnesAre(Now(), id);
      var p := PointerOf(World(objs, heap), id);
      for c := 0 to objs[id].count
        invariant c > 0 ==> Held(Now(), id)[0] != Word(RUNTIME)
        invariant forall k :: 0 <= k < c ==> FloatEq(Held(Now(), id)[k].bits, ONE)
      {
        var x := Load(p, c);
        if !FloatEq(x, ONE) {
          assert MeaningOf(Now(), id).Known? ==> MeaningOf(Now(), id).scales[c] == x;
          return false;
        }
      }
      return true;
    }

    /** operator==, conjunct by conjunct: a null pointer is never read, nor is anything behind a sentinel. */
    method Equals(i: Id, j: Id) returns (r: bool)
      requires Inv(Now()) && i in objs && j in objs
      ensures r <==> Equal(MeaningOf(Now(), i), MeaningOf(Now(), j))
      ensures r <==> SameScales(objs[i], Held(Now(), i), objs[j], Held(Now(), j))
    {
      assert Sound(objs[i], Held(Now(), i)) && Sound(objs[j], Held(Now(), j));
      EqualAre(Now(), i, j);
      if objs[i].count != objs[j].count || objs[i].mask != objs[j].mask || objs[i].ptr.Null? || objs[j].ptr.Null? {
        return false;
      }
      var di := Defined(i);
      var dj := Defined(j);
      if di != dj {
        return false;
      }
      if !di {
        return true;
      }
      r := ArrayCmp(PointerOf(World(objs, heap), i), PointerOf(World(objs, heap), j), objs[i].count);
    }

    method ArrayCmp(p: Source, q: Source, size: nat) returns (r: bool)
      requires Readable(Cells(Now(), p), size) && Readable(Cells(Now(), q), size)
      ensures r <==> AllEqual(Bits(Cells(Now(), p), size), Bits(Cells(Now(), q), size))
      ensures r <==> forall k :: 0 <= k < size ==> FloatEq(Cells(Now(), p)[k].bits, Cells(Now(), q)[k].bits)
    {
      for i := 0 to size
        invariant forall k :: 0 <= k < i ==> FloatEq(Cells(Now(), p)[k].bits, Cells(Now(), q)[k].bits)
      {
        var x := Load(p, i);
        var y := Load(q, i);
        if !FloatEq(x, y) {
          assert !FloatEq(Bits(Cells(Now(), p), size)[i], Bits(Cells(Now(), q), size)[i]);
          return false;
        }
      }
      return true;
    }
  }

  /**
   Four operations of which the first three complete: two default objects, a set of two scales on
   the first that is refused memory, and an assignment from it, which reads through null.
   */
  method NullSourceExample() returns (completed: seq<bool>)
    ensures completed == [true, true, true, false]
  {
    var m, a, b, c := RefusedObject();
    var d := m.Perform(Assign(1, 0, Null));
    completed := [a, b, c, d];
  }

  method RefusedObject() returns (m: Memory, a: bool, b: bool, c: bool)
    ensures fresh(m) && Inv(m.Now()) && 0 in m.objs && 1 in m.objs && m.objs[0].ptr.Null? && a && b && c
  {
    m := new Memory();
    a := m.Perform(Default(0));
    b := m.Perform(Default(1));
    var src := User([Word(ONE), Word(ONE)]);
    SetMeans(m.Now(), 0, 2, 0, src, Null);
    c := m.Perform(Reset(0, 2, 0, src, Null));
    UnusableIsNull(m.Now(), 0);
  }

  /** An object holding 2.0f and a default object: the first has no default values, and the two differ. */
  method ComparisonExample() returns (two: bool, one: bool, different: bool, same: bool)
    ensures !two && one && !different && same
  {
    var m := TwoObjects();
    TwoIsNotOne();
    ghost var a, b := MeaningOf(m.Now(), 0).scales, MeaningOf(m.Now(), 1).scales;
    assert |a| == |b| == 1 && a[0] == 0x4000_0000 && b[0] == ONE;
    two := m.HasDefaultValues(0);
    one := m.HasDefaultValues(1);
    different := m.Equals(0, 1);
    same := m.Equals(1, 1);
  }

  method TwoObjects() returns (m: Memory)
    ensures fresh(m) && Inv(m.Now()) && 0 in m.objs && 1 in m.objs && !m.objs[0].ptr.Null? && !m.objs[1].ptr.Null?
    ensures MeaningOf(m.Now(), 0) == Known(1, 0, [0x4000_0000]) && MeaningOf(m.Now(), 1) == Known(1, 0, [ONE])
  {
    m := new Memory();
    var src := User([Word(0x4000_0000)]);
    SetMeans(Declare(m.Now(), 0), 0, 1, 0, src, Null);
    var done := m.Perform(FromArguments(0, 1, 0, src, Null));
    assert MeaningOf(m.Now(), 0) == Known(1, 0, [0x4000_0000]);
    ghost var w := m.Now();
    DefaultKeeps(w, 1);
    DefaultMeans(w, 1);
    done := m.Perform(Default(1));
    assert Held(m.Now(), 0) == Held(w, 0);
    UnusableIsNull(m.Now(), 0);
    UnusableIsNull(m.Now(), 1);
  }

  lemma TwoIsNotOne()
    ensures !FloatEq(0x4000_0000, ONE) && !FloatEq(ONE, 0x4000_0000) && FloatEq(ONE, ONE)
  {
    FloatEqDecides(0x4000_0000, ONE);
    FloatEqDecides(ONE, ONE);
    InvSqrt.ValueIncreases(InvSqrt.SINGLE, ONE, 0x4000_0000);
  }
}
