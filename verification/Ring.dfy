/**
 The ring of blocks behind every queue of the gateway (`STACK` in sgg_stack.cpp).

 The ring owns `stackSize` blocks. `PushStack` hands the caller the next free block to fill,
 `PopStack` hands out the oldest filled one, and the two `Back...` operations undo the last
 push or the last pop. A `Fifo` is the ring's abstract value: the filled blocks, oldest first,
 and the free blocks in the order in which they will be handed out.
 */
module Ring {
  import opened Sequences

  datatype Fifo<T> = Fifo(items: seq<T>, free: seq<T>) {

    predicate Full() { |free| == 1 }

    predicate Empty() { items == [] }

    // At least one block is always free: a ring of `size` blocks holds `size - 1` items.
    ghost predicate Valid() { |free| >= 1 }

    function Size(): nat { |items| + |free| }

    function Push(): Fifo<T>
      requires |free| >= 1
    {
      if Full() then this else Fifo(items + [free[0]], free[1..])
    }

    function BackPush(): Fifo<T> {
      if Empty() then this else Fifo(items[..|items| - 1], [items[|items| - 1]] + free)
    }

    function Pop(): Fifo<T> {
      if Empty() then this else Fifo(items[1..], free + [items[0]])
    }

    function BackPop(): Fifo<T>
      requires |free| >= 1
    {
      if Full() then this else Fifo([free[|free| - 1]] + items, free[..|free| - 1])
    }

    // Release the `k` oldest items.
    function Drop(k: nat): Fifo<T>
      requires k <= |items|
    {
      Fifo(items[k..], free + items[..k])
    }
  }

  // The blocks in ring order from `bottom`; the first `count` of them are filled.
  function Rotate<T>(blocks: seq<T>, bottom: nat): (r: seq<T>)
    requires bottom < |blocks|
    ensures |r| == |blocks|
  {
    blocks[bottom..] + blocks[..bottom]
  }

  // Positions wrap at most once.
  lemma Wrap(a: nat, size: nat)
    requires a < 2 * size
    ensures a % size == if a < size then a else a - size
  {
    if a >= size {
      assert (a - size) % size == a - size;
    }
  }

  function Count(top: nat, bottom: nat, size: nat): (c: nat)
    requires top < size && bottom < size
    ensures c < size
  {
    if bottom <= top then top - bottom else top + size - bottom
  }

  lemma RotateAt<T>(blocks: seq<T>, bottom: nat, k: nat)
    requires bottom < |blocks| && k < |blocks|
    ensures Rotate(blocks, bottom)[k] == blocks[(bottom + k) % |blocks|]
  {
    Wrap(bottom + k, |blocks|);
  }

  lemma RotateBy<T>(blocks: seq<T>, bottom: nat, k: nat)
    requires bottom < |blocks| && k < |blocks|
    ensures Rotate(blocks, (bottom + k) % |blocks|) == Rotate(blocks, bottom)[k..] + Rotate(blocks, bottom)[..k]
  {
    Wrap(bottom + k, |blocks|);
    var ring := Rotate(blocks, bottom);
    if bottom + k < |blocks| {
      assert ring[k..] == blocks[bottom + k..] + blocks[..bottom];
      assert ring[..k] == blocks[bottom..bottom + k];
      assert blocks[..bottom] + blocks[bottom..bottom + k] == blocks[..bottom + k];
    } else {
      var p := bottom + k - |blocks|;
      assert ring[k..] == blocks[p..bottom];
      assert ring[..k] == blocks[bottom..] + blocks[..p];
      assert blocks[p..bottom] + blocks[bottom..] == blocks[p..];
    }
  }

  function Next(p: nat, size: nat): nat
    requires size > 0
  {
    (p + 1) % size
  }

  function Previous(p: nat, size: nat): nat
    requires size > 0
  {
    (p + size - 1) % size
  }

  ghost function RingView<T>(blocks: seq<T>, top: nat, bottom: nat): Fifo<T>
    requires top < |blocks| && bottom < |blocks|
  {
    var ring := Rotate(blocks, bottom);
    var count := Count(top, bottom, |blocks|);
    Fifo(ring[..count], ring[count..])
  }

  lemma FullIsNextTop<T>(blocks: seq<T>, top: nat, bottom: nat)
    requires top < |blocks| && bottom < |blocks|
    ensures RingView(blocks, top, bottom).Full() <==> Next(top, |blocks|) == bottom
  {
    Wrap(top + 1, |blocks|);
  }

  lemma PushMovesTop<T>(blocks: seq<T>, top: nat, bottom: nat)
    requires top < |blocks| && bottom < |blocks| && Next(top, |blocks|) != bottom
    ensures var f := RingView(blocks, top, bottom);
            blocks[top] == f.free[0] && RingView(blocks, Next(top, |blocks|), bottom) == f.Push()
  {
    Wrap(top + 1, |blocks|);
    RotateAt(blocks, bottom, Count(top, bottom, |blocks|));
    Wrap(bottom + Count(top, bottom, |blocks|), |blocks|);
  }

  lemma BackPushMovesTop<T>(blocks: seq<T>, top: nat, bottom: nat)
    requires top < |blocks| && bottom < |blocks| && top != bottom
    ensures RingView(blocks, Previous(top, |blocks|), bottom) == RingView(blocks, top, bottom).BackPush()
  {
    Wrap(top + |blocks| - 1, |blocks|);
  }

  // Turning a ring by `k` of its `count` items makes them the last free blocks.
  lemma TurnDrops<T>(ring: seq<T>, count: nat, k: nat)
    requires k <= count <= |ring|
    ensures var turned := ring[k..] + ring[..k];
            turned[..count - k] == ring[..count][k..] && turned[count - k..] == ring[count..] + ring[..count][..k]
  {
  }

  lemma CountMoves(top: nat, bottom: nat, size: nat, k: nat)
    requires top < size && bottom < size && k <= Count(top, bottom, size)
    ensures (bottom + k) % size < size && Count(top, (bottom + k) % size, size) == Count(top, bottom, size) - k
  {
    Wrap(bottom + k, size);
  }

  // Moving `bottom` forward over `k` items turns them into the last free blocks.
  lemma DropMovesBottom<T>(blocks: seq<T>, top: nat, bottom: nat, k: nat)
    requires top < |blocks| && bottom < |blocks| && k <= Count(top, bottom, |blocks|)
    ensures RingView(blocks, top, (bottom + k) % |blocks|) == RingView(blocks, top, bottom).Drop(k)
  {
    CountMoves(top, bottom, |blocks|, k);
    RotateBy(blocks, bottom, k);
    TurnDrops(Rotate(blocks, bottom), Count(top, bottom, |blocks|), k);
  }

  lemma BackPopMovesBottom<T>(blocks: seq<T>, top: nat, bottom: nat)
    requires top < |blocks| && bottom < |blocks| && Next(top, |blocks|) != bottom
    ensures RingView(blocks, top, Previous(bottom, |blocks|)) == RingView(blocks, top, bottom).BackPop()
  {
    var bottom' := Previous(bottom, |blocks|);
    Wrap(bottom + |blocks| - 1, |blocks|);
    Wrap(bottom' + 1, |blocks|);
    Wrap(top + 1, |blocks|);
    DropMovesBottom(blocks, top, bottom', 1);
    var f := RingView(blocks, top, bottom');
    assert RingView(blocks, top, bottom) == f.Drop(1);
    assert [f.items[0]] + f.items[1..] == f.items;
  }

  // Where the `k`-th block of the ring, counted from `bottom`, is stored.
  lemma ItemAt<T>(blocks: seq<T>, top: nat, bottom: nat, k: nat)
    requires top < |blocks| && bottom < |blocks| && k < Count(top, bottom, |blocks|)
    ensures var p := (bottom + k) % |blocks|;
            p != top && RingView(blocks, top, bottom).items[k] == blocks[p]
            && Next(p, |blocks|) == (bottom + k + 1) % |blocks|
  {
    var p := (bottom + k) % |blocks|;
    Wrap(bottom + k, |blocks|);
    Wrap(bottom + k + 1, |blocks|);
    Wrap(p + 1, |blocks|);
    RotateAt(blocks, bottom, k);
  }

  lemma PreviousItem(bottom: nat, k: nat, size: nat)
    requires bottom < size && 0 < k < size
    ensures (bottom + k) % size != bottom
    ensures Previous((bottom + k) % size, size) == (bottom + k - 1) % size
  {
    Wrap(bottom + k, size);
    Wrap(bottom + k - 1, size);
    Wrap((bottom + k) % size + size - 1, size);
  }

  // One step of a backward scan, and the release that ends it.
  lemma ScanBack<T>(blocks: seq<T>, top: nat, bottom: nat, k: nat)
    requires top < |blocks| && bottom < |blocks| && 0 < k <= Count(top, bottom, |blocks|)
    ensures var p := (bottom + k - 1) % |blocks|;
            var f := RingView(blocks, top, bottom);
            && bottom != (bottom + k) % |blocks|
            && Previous((bottom + k) % |blocks|, |blocks|) == p
            && f.items[k - 1] == blocks[p]
            && RingView(blocks, top, Next(p, |blocks|)) == f.Drop(k)
  {
    PreviousItem(bottom, k, |blocks|);
    ItemAt(blocks, top, bottom, k - 1);
    DropMovesBottom(blocks, top, bottom, k);
  }

  lemma ItemsEnd(top: nat, bottom: nat, size: nat)
    requires top < size && bottom < size
    ensures (bottom + Count(top, bottom, size)) % size == top && bottom % size == bottom
  {
    Wrap(bottom + Count(top, bottom, size), size);
  }

  ghost predicate IsFirst<T>(items: seq<T>, matches: T -> bool, k: nat) {
    k < |items| && matches(items[k]) && forall i :: 0 <= i < k ==> !matches(items[i])
  }

  ghost predicate IsLast<T>(items: seq<T>, matches: T -> bool, k: nat) {
    k < |items| && matches(items[k]) && forall i :: k < i < |items| ==> !matches(items[i])
  }

  class Stack<T(0)> {
    const data: array<T>
    const stackSize: nat
    var top: nat
    var buttom: nat

    ghost predicate Valid()
      reads this
    {
      0 < stackSize == data.Length && top < stackSize && buttom < stackSize
    }

    ghost function View(): Fifo<T>
      requires Valid()
      reads this, data
    {
      RingView(data[..], top, buttom)
    }

    constructor (blocks: seq<T>)
      requires |blocks| > 0
      ensures Valid() && stackSize == |blocks|
      ensures View() == Fifo([], blocks)
      ensures fresh(data)
    {
      data := new T[|blocks|](i requires 0 <= i < |blocks| => blocks[i]);
      stackSize := |blocks|;
      top, buttom := 0, 0;
      new;
      assert data[..] == blocks;
      assert Rotate(blocks, 0) == blocks;
    }

    method IsStackEmpty() returns (b: bool)
      requires Valid()
      ensures b == View().Empty()
    {
      b := top == buttom;
    }

    method IsStackFull() returns (b: bool)
      requires Valid()
      ensures b == View().Full()
    {
      FullIsNextTop(data[..], top, buttom);
      b := Next(top, stackSize) == buttom;
    }

    // The block that a successful push hands out is the caller's to fill.
    method PushStack() returns (ret: int, val: T)
      requires Valid()
      modifies this`top
      ensures Valid()
      ensures old(View()).Full() ==> ret == -1
      ensures !old(View()).Full() ==> ret == 0 && val == old(View()).free[0]
      ensures View() == old(View()).Push()
    {
      FullIsNextTop(data[..], top, buttom);
      val := data[top];
      if Next(top, stackSize) == buttom {
        return -1, val;
      }
      PushMovesTop(data[..], top, buttom);
      top := Next(top, stackSize);
      ret := 0;
    }

    method BackPushStack() returns (ret: int)
      requires Valid()
      modifies this`top
      ensures Valid()
      ensures ret == if old(View()).Empty() then -1 else 0
      ensures View() == old(View()).BackPush()
    {
      if top == buttom {
        return -1;
      }
      BackPushMovesTop(data[..], top, buttom);
      top := Previous(top, stackSize);
      ret := 0;
    }

    method PopStack() returns (ret: int, val: T)
      requires Valid()
      modifies this`buttom
      ensures Valid()
      ensures old(View()).Empty() ==> ret == -1
      ensures !old(View()).Empty() ==> ret == 0 && val == old(View()).items[0]
      ensures View() == old(View()).Pop()
    {
      val := data[buttom];
      if top == buttom {
        return -1, val;
      }
      DropMovesBottom(data[..], top, buttom, 1);
      buttom := Next(buttom, stackSize);
      ret := 0;
    }

    method BackPopStack() returns (ret: int)
      requires Valid()
      modifies this`buttom
      ensures Valid()
      ensures ret == if old(View()).Full() then -1 else 0
      ensures View() == old(View()).BackPop()
    {
      FullIsNextTop(data[..], top, buttom);
      if Next(top, stackSize) == buttom {
        return -1;
      }
      BackPopMovesBottom(data[..], top, buttom);
      buttom := Previous(buttom, stackSize);
      ret := 0;
    }

    // The oldest item that `matches` accepts.
    method GetStackData(matches: T -> bool) returns (ret: int, val: T, ghost at: nat)
      requires Valid()
      ensures ret == 0 || ret == -1
      ensures ret == 0 ==> IsFirst(View().items, matches, at) && val == View().items[at]
      ensures ret == -1 ==> forall x :: x in View().items ==> !matches(x)
    {
      ghost var items := View().items;
      at := 0;
      var index := buttom;
      val := data[index];
      ItemsEnd(top, buttom, stackSize);
      while top != index
        invariant at <= |items| && index == (buttom + at) % stackSize
        invariant forall i :: 0 <= i < at ==> !matches(items[i])
        decreases |items| - at
      {
        ItemAt(data[..], top, buttom, at);
        if matches(data[index]) {
          val := data[index];
          return 0, val, at;
        }
        index := Next(index, stackSize);
        at := at + 1;
      }
      if at < |items| {
        ItemAt(data[..], top, buttom, at);
      }
      ret := -1;
    }

    // Scan from the newest item backwards and release everything up to the first match.
    method PopStackEx(matches: T -> bool) returns (ret: int, ghost at: nat)
      requires Valid()
      modifies this`buttom
      ensures Valid()
      ensures ret == 0 || ret == -2
      ensures ret == 0 ==> IsLast(old(View()).items, matches, at) && View() == old(View()).Drop(at + 1)
      ensures ret == -2 ==> View() == old(View()) && forall x :: x in View().items ==> !matches(x)
    {
      ghost var items := View().items;
      at := |items|;
      var index := top;
      ItemsEnd(top, buttom, stackSize);
      while buttom != index
        invariant at <= |items| && index == (buttom + at) % stackSize
        invariant forall i :: at <= i < |items| ==> !matches(items[i])
        invariant buttom == old(buttom)
        decreases at
      {
        ScanBack(data[..], top, buttom, at);
        index := Previous(index, stackSize);
        at := at - 1;
        if matches(data[index]) {
          buttom := Next(index, stackSize);
          return 0, at;
        }
      }
      if at > 0 {
        PreviousItem(buttom, at, stackSize);
      }
      ret := -2;
    }
  }

  // ----- Blocks and what is stored in them -----

  ghost predicate Distinct<T>(s: seq<T>) {
    forall i, j :: 0 <= i < j < |s| ==> s[i] != s[j]
  }

  // The contents of blocks that are handles into a heap.
  ghost predicate Handles(blocks: seq<nat>, size: nat) {
    forall i :: 0 <= i < |blocks| ==> blocks[i] < size
  }

  ghost function Contents<T>(heap: seq<T>, blocks: seq<nat>): (c: seq<T>)
    requires Handles(blocks, |heap|)
  {
    seq(|blocks|, i requires 0 <= i < |blocks| => heap[blocks[i]])
  }

  // The ring's blocks are distinct handles into a heap of `size` block contents.
  ghost predicate Blocks(f: Fifo<nat>, size: nat) {
    f.Size() == size && Distinct(f.items + f.free) && Handles(f.items + f.free, size)
  }

  lemma ItemsAreHandles(f: Fifo<nat>, size: nat)
    requires Blocks(f, size)
    ensures Handles(f.items, size) && Handles(f.free, size)
  {
    var all := f.items + f.free;
    assert forall i :: 0 <= i < |f.items| ==> f.items[i] == all[i];
    assert forall i :: 0 <= i < |f.free| ==> f.free[i] == all[|f.items| + i];
  }

  // Filling the block that a push hands out adds its contents and touches no other block.
  lemma FillBlock<T>(heap: seq<T>, f: Fifo<nat>, x: T)
    requires Blocks(f, |heap|) && |f.free| > 1
    ensures Blocks(f.Push(), |heap|) && Handles(f.items, |heap|) && Handles(f.Push().items, |heap|)
    ensures f.free[0] < |heap|
    ensures Contents(heap[f.free[0] := x], f.Push().items) == Contents(heap, f.items) + [x]
  {
    var all := f.items + f.free;
    assert f.Push().items + f.Push().free == all;
    ItemsAreHandles(f, |heap|);
    ItemsAreHandles(f.Push(), |heap|);
    assert all[|f.items|] == f.free[0];
    forall i | 0 <= i < |f.items|
      ensures f.items[i] != f.free[0]
    {
      assert all[i] == f.items[i];
    }
  }

  lemma DropBlocks(f: Fifo<nat>, size: nat, k: nat)
    requires Blocks(f, size) && k <= |f.items|
    ensures Blocks(f.Drop(k), size)
  {
    var all := f.items + f.free;
    var rotated := f.Drop(k).items + f.Drop(k).free;
    assert rotated == all[k..] + all[..k];
  }

  // ----- What every run of ring operations keeps -----

  datatype Op = DoPush | DoBackPush | DoPop | DoBackPop

  // A ring with the blocks handed out for filling and not taken back (`pushed`), and the blocks
  // handed out for reading and not put back (`popped`). The last `undoable` popped blocks are
  // still the last free ones, so that putting back undoes a pop; `sound` says that so far every
  // put-back did.
  datatype Log<T> = Log(ring: Fifo<T>, pushed: seq<T>, popped: seq<T>, undoable: nat, sound: bool) {
    ghost predicate Consistent(blocks: multiset<T>, size: nat) {
      && ring.Valid()
      && ring.Size() == size
      && multiset(ring.items + ring.free) == blocks
      && SameLast(ring.free, popped, undoable)
      && (sound ==> popped + ring.items == pushed)
    }

    function Apply(op: Op): Log<T>
      requires ring.free != []
    {
      match op
      case DoPush =>
        if ring.Full() then this
        else
          this.(ring := ring.Push(), pushed := pushed + [ring.free[0]],
                undoable := if undoable < |ring.free| then undoable else |ring.free| - 1)
      case DoBackPush =>
        if ring.Empty() then this else this.(ring := ring.BackPush(), pushed := DropLast(pushed))
      case DoPop =>
        if ring.Empty() then this
        else this.(ring := ring.Pop(), popped := popped + [ring.items[0]], undoable := undoable + 1)
      case DoBackPop =>
        if ring.Full() then this
        else
          this.(ring := ring.BackPop(), popped := DropLast(popped), sound := sound && undoable > 0,
                undoable := if undoable > 0 then undoable - 1 else 0)
    }
  }

  function DropLast<T>(s: seq<T>): seq<T> { if s == [] then [] else s[..|s| - 1] }

  function FromEnd<T>(s: seq<T>, i: nat): T
    requires i < |s|
  {
    s[|s| - 1 - i]
  }

  // The last `k` of two sequences are the same.
  ghost predicate SameLast<T>(a: seq<T>, b: seq<T>, k: nat) {
    k <= |a| && k <= |b| && forall i :: 0 <= i < k ==> FromEnd(a, i) == FromEnd(b, i)
  }

  lemma PushKeepsRing<T>(r: Fifo<T>)
    requires r.Valid()
    ensures r.Push().Valid() && r.Push().Size() == r.Size()
    ensures r.Push().items + r.Push().free == r.items + r.free
  {
    if !r.Full() {
      MoveHead(r.items, r.free);
    }
  }

  lemma PushKeepsLog<T>(l: Log<T>, blocks: multiset<T>, size: nat)
    requires l.Consistent(blocks, size)
    ensures l.Apply(DoPush).Consistent(blocks, size)
  {
    PushKeepsRing(l.ring);
    if !l.ring.Full() {
      var t := l.Apply(DoPush);
      assert t.popped + t.ring.items == (l.popped + l.ring.items) + [l.ring.free[0]];
      assert l.ring.free == [l.ring.free[0]] + t.ring.free;
      SameLastOfRest(t.ring.free, [l.ring.free[0]], l.popped, t.undoable);
    }
  }

  lemma BackPushKeepsRing<T>(r: Fifo<T>)
    requires r.Valid()
    ensures r.BackPush().Valid() && r.BackPush().Size() == r.Size()
    ensures r.BackPush().items + r.BackPush().free == r.items + r.free
  {
    if !r.Empty() {
      MoveLast(r.items, r.free);
    }
  }

  lemma BackPushKeepsLog<T>(l: Log<T>, blocks: multiset<T>, size: nat)
    requires l.Consistent(blocks, size)
    ensures l.Apply(DoBackPush).Consistent(blocks, size)
  {
    BackPushKeepsRing(l.ring);
    if !l.ring.Empty() {
      var items := l.ring.items;
      assert l.popped + items[..|items| - 1] == DropLast(l.popped + items);
      SameLastOfRest(l.ring.free, [items[|items| - 1]], l.popped, l.undoable);
    }
  }

  lemma PopKeepsRing<T>(r: Fifo<T>)
    requires r.Valid()
    ensures r.Pop().Valid() && r.Pop().Size() == r.Size()
    ensures multiset(r.Pop().items + r.Pop().free) == multiset(r.items + r.free)
  {
    if !r.Empty() {
      MoveHead(r.free, r.items);
      Swap(r.items, r.free);
      Swap(r.items[1..], r.free + [r.items[0]]);
    }
  }

  lemma PopKeepsLog<T>(l: Log<T>, blocks: multiset<T>, size: nat)
    requires l.Consistent(blocks, size)
    ensures l.Apply(DoPop).Consistent(blocks, size)
  {
    PopKeepsRing(l.ring);
    if !l.ring.Empty() {
      MoveHead(l.popped, l.ring.items);
      AppendBoth(l.ring.free, l.popped, l.undoable, l.ring.items[0]);
    }
  }

  lemma AppendBoth<T>(a: seq<T>, b: seq<T>, k: nat, x: T)
    requires SameLast(a, b, k)
    ensures SameLast(a + [x], b + [x], k + 1)
  {
    forall i | 0 <= i < k + 1
      ensures FromEnd(a + [x], i) == FromEnd(b + [x], i)
    {
      if i > 0 {
        assert FromEnd(a, i - 1) == FromEnd(b, i - 1);
      }
    }
  }

  lemma DropBoth<T>(a: seq<T>, b: seq<T>, k: nat)
    requires k > 0 && SameLast(a, b, k)
    ensures a[|a| - 1] == b[|b| - 1] && SameLast(DropLast(a), DropLast(b), k - 1)
  {
    assert FromEnd(a, 0) == FromEnd(b, 0);
    forall i | 0 <= i < k - 1
      ensures FromEnd(DropLast(a), i) == FromEnd(DropLast(b), i)
    {
      assert FromEnd(a, i + 1) == FromEnd(b, i + 1);
    }
  }

  // The end of a sequence does not depend on what is in front of it.
  lemma SameLastOfRest<T>(a: seq<T>, front: seq<T>, b: seq<T>, k: nat)
    requires k <= |a|
    ensures SameLast(front + a, b, k) <==> SameLast(a, b, k)
  {
    forall i | 0 <= i < k
      ensures FromEnd(front + a, i) == FromEnd(a, i)
    {
    }
  }

  lemma BackPopKeepsRing<T>(r: Fifo<T>)
    requires r.Valid()
    ensures r.BackPop().Valid() && r.BackPop().Size() == r.Size()
    ensures multiset(r.BackPop().items + r.BackPop().free) == multiset(r.items + r.free)
  {
    if !r.Full() {
      var r' := r.BackPop();
      MoveLast(r.free, r.items);
      assert r'.free + r'.items == r.free + r.items;
      Swap(r.items, r.free);
      Swap(r'.items, r'.free);
    }
  }

  lemma BackPopKeepsLog<T>(l: Log<T>, blocks: multiset<T>, size: nat)
    requires l.Consistent(blocks, size)
    ensures l.Apply(DoBackPop).Consistent(blocks, size)
  {
    BackPopKeepsRing(l.ring);
    if !l.ring.Full() && l.undoable > 0 {
      DropBoth(l.ring.free, l.popped, l.undoable);
      MoveLast(l.popped, l.ring.items);
    }
  }

  lemma ApplyKeepsLog<T>(l: Log<T>, op: Op, blocks: multiset<T>, size: nat)
    requires l.Consistent(blocks, size)
    ensures l.Apply(op).Consistent(blocks, size)
  {
    match op
    case DoPush => PushKeepsLog(l, blocks, size);
    case DoBackPush => BackPushKeepsLog(l, blocks, size);
    case DoPop => PopKeepsLog(l, blocks, size);
    case DoBackPop => BackPopKeepsLog(l, blocks, size);
  }

  ghost function Run<T>(l: Log<T>, ops: seq<Op>, blocks: seq<T>): (r: Log<T>)
    requires l.Consistent(multiset(blocks), |blocks|)
    ensures r.Consistent(multiset(blocks), |blocks|)
    decreases ops
  {
    if ops == [] then l
    else
      ApplyKeepsLog(l, ops[0], multiset(blocks), |blocks|);
      Run(l.Apply(ops[0]), ops[1..], blocks)
  }

  ghost function Fresh<T>(blocks: seq<T>): Log<T> { Log(Fifo([], blocks), [], [], 0, true) }

  // Any run at all keeps every block, once, and never holds more than `stackSize - 1` items. As
  // long as every `BackPopStack` undoes a pop, it refines a bounded FIFO: what was read, followed
  // by what is stored, is what was written.
  lemma RingRefinesFifo<T>(blocks: seq<T>, ops: seq<Op>)
    requires blocks != []
    ensures Fresh(blocks).Consistent(multiset(blocks), |blocks|)
    ensures var l := Run(Fresh(blocks), ops, blocks);
            && multiset(l.ring.items + l.ring.free) == multiset(blocks)
            && |l.ring.items| <= |blocks| - 1
            && (l.ring.Full() <==> |l.ring.items| == |blocks| - 1)
            && (l.sound ==> l.popped + l.ring.items == l.pushed)
  {
    assert [] + blocks == blocks;
  }

  // Putting back without a pop makes an item out of a block that nobody wrote.
  lemma UnsoundExample<T>(blocks: seq<T>)
    requires |blocks| >= 2
    ensures var l := Fresh(blocks).Apply(DoBackPop);
            !l.sound && l.pushed == [] && l.ring.items == [blocks[|blocks| - 1]]
  {
  }

  function RunWriter<T>(f: Fifo<T>, pushes: seq<bool>): (g: Fifo<T>)
    requires f.free != []
    ensures g.free != [] && g.items + g.free == f.items + f.free
    decreases pushes
  {
    if pushes == [] then f
    else
      var g := if pushes[0] then f.Push() else f.BackPush();
      assert g.items + g.free == f.items + f.free by {
        assert f.free == [f.free[0]] + f.free[1..];
        assert !f.Empty() ==> f.items == f.items[..|f.items| - 1] + [f.items[|f.items| - 1]];
      }
      RunWriter(g, pushes[1..])
  }

  // A block that was popped stays the reader's until the next pop: whatever the writer does,
  // no push hands it out, and `BackPopStack` puts it back in front unless the ring is full.
  lemma PoppedBlockIsKept<T>(f: Fifo<T>, pushes: seq<bool>)
    requires f.items != [] && f.free != [] && Distinct(f.items + f.free)
    ensures var g := RunWriter(f.Pop(), pushes);
            && (!g.Full() ==> g.free[0] != f.items[0] && g.BackPop().items == [f.items[0]] + g.items)
            && (g.Full() ==> g.Push() == g && g.BackPop() == g)
  {
    var p := f.Pop();
    var g := RunWriter(p, pushes);
    var all := f.items + f.free;
    var rotated := p.items + p.free;
    assert rotated == all[1..] + [all[0]];
    assert g.items + g.free == rotated;
    assert g.free[|g.free| - 1] == rotated[|rotated| - 1] == f.items[0];
    if !g.Full() {
      assert g.free[0] == rotated[|g.items|] == all[|g.items| + 1];
      assert all[0] != all[|g.items| + 1];
    }
  }
}
