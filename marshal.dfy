/**
 * The value marshaler: variantToMpvNode and freeMpvNode over the C heap.
 *
 * The specification functions below follow the source's loops step by step
 * (one call per element index), so that the methods of `NativeHeap` can be
 * proved against them with a single loop invariant each. What encoding and
 * freeing achieve (round trip, no leak, behaviour on failure) is proved about
 * these functions in module MarshalProofs.
 */
module Marshal {
  import opened Values
  import opened Native

  /**
   * How a container's arrays start out: `new T[n]` leaves the elements
   * indeterminate (what the source does); `new T[n]()` zeroes them, which
   * reads as format NONE for a node and as a null pointer for a key.
   */
  datatype ArrayInit = DefaultInit | ValueInit

  function FreshSlot(init: ArrayInit): Slot
  {
    if init == DefaultInit then Uninit else Init(NNone)
  }

  function FreshKey(init: ArrayInit): KeySlot
  {
    if init == DefaultInit then KeyUninit else KeyNull
  }

  /** `n` copies of `x`: a freshly allocated array. */
  function Fill<T>(x: T, n: nat): (r: seq<T>)
    ensures |r| == n && forall j :: 0 <= j < n ==> r[j] == x
  {
    if n == 0 then [] else Fill(x, n - 1) + [x]
  }

  /** The list record and values array of an `n`-element list allocated on `h`. */
  function NewList(h: Heap, n: nat, init: ArrayInit): NodeList
  {
    NodeList(h.next, h.next + 1, Fill(FreshSlot(init), n), 0, [])
  }

  /** The list record, values array and keys array of an `n`-pair map allocated on `h`. */
  function NewMap(h: Heap, n: nat, init: ArrayInit): NodeList
  {
    NodeList(h.next, h.next + 1, Fill(FreshSlot(init), n), h.next + 2, Fill(FreshKey(init), n))
  }

  /** Outcome of one encode call: the returned flag, the destination node afterwards, the heap afterwards. */
  datatype Encoded = Encoded(ok: bool, slot: Slot, heap: Heap)

  /** Where a container's element loop stopped: all done, or at a failing element; the container so far; the heap. */
  datatype Filled = Filled(ok: bool, list: NodeList, heap: Heap)

  /**
   * variantToMpvNode(v, dst): bool, int and qlonglong, double and string fill
   * the node directly (a string gets a malloc'd copy); a list allocates the
   * list record and a values array and encodes each element into its slot; a
   * map additionally allocates a keys array and a malloc'd copy of each key
   * just before encoding the element. Any other kind returns false with `dst`
   * untouched.
   */
  function EncodeSpec(v: Value, dst: Slot, h: Heap, init: ArrayInit): Encoded
    decreases v, 1, 0
  {
    match v
    case Bool(b) => Encoded(true, Init(NFlag(if b then 1 else 0)), h)
    case Int(i) => Encoded(true, Init(NInt64(i as int as Int64)), h)
    case LongLong(x) => Encoded(true, Init(NInt64(x)), h)
    case Double(d) => Encoded(true, Init(NDouble(d)), h)
    case Str(s) => Encoded(true, Init(NString(h.next, s)), Alloc(h, Malloc))
    case List(items) =>
      Close(FillItems(v, NewList(h, |items|, init), 0, Alloc(Alloc(h, New), NewArray), init), false)
    case Map(es) =>
      Close(FillEntries(v, NewMap(h, |es|, init), 0, Alloc(Alloc(Alloc(h, New), NewArray), NewArray), init), true)
    case Invalid => Encoded(false, dst, h)
    case Other(_) => Encoded(false, dst, h)
  }

  /** After the element loop: hand the container out, or free all of it and leave the node NONE. */
  function Close(f: Filled, isMap: bool): Encoded
  {
    var s := Init(if isMap then NMap(f.list) else NArray(f.list));
    if f.ok then Encoded(true, s, f.heap) else Encoded(false, Init(NNone), Releases(f.heap, FreeSeq(s)))
  }

  /** The list loop from element `i` on: encode element `i` into its slot, stopping at the first failure. */
  function FillItems(v: Value, l: NodeList, i: nat, h: Heap, init: ArrayInit): Filled
    requires v.List? && |l.values| == |v.items| && i <= |v.items|
    decreases v, 0, |v.items| - i
  {
    if i == |v.items| then Filled(true, l, h)
    else
      var c := EncodeSpec(v.items[i], l.values[i], h, init);
      var l' := l.(values := l.values[i := c.slot]);
      if !c.ok then Filled(false, l', c.heap)
      else FillItems(v, l', i + 1, c.heap, init)
  }

  /** The map loop from pair `i` on: copy the key, then encode the value, stopping at the first failure. */
  function FillEntries(v: Value, l: NodeList, i: nat, h: Heap, init: ArrayInit): Filled
    requires v.Map? && |l.values| == |v.entries| && |l.keys| == |v.entries| && i <= |v.entries|
    decreases v, 0, |v.entries| - i
  {
    if i == |v.entries| then Filled(true, l, h)
    else
      var e := v.entries[i];
      assert e in v.entries;
      var c := EncodeSpec(e.value, l.values[i], Alloc(h, Malloc), init);
      var l' := l.(keys := l.keys[i := Key(h.next, e.key)], values := l.values[i := c.slot]);
      if !c.ok then Filled(false, l', c.heap)
      else FillEntries(v, l', i + 1, c.heap, init)
  }

  /** The process heap, on which the marshaler allocates and frees. */
  class NativeHeap {
    var live: map<Addr, Kind>
    var next: Addr
    var faulted: bool

    function State(): Heap
      reads this
    {
      Heap(live, next, faulted)
    }

    constructor ()
      ensures State() == Heap(map[], 0, false)
    {
      live, next, faulted := map[], 0, false;
    }

    method Allocate(k: Kind) returns (a: Addr)
      modifies this
      ensures a == old(next)
      ensures State() == Alloc(old(State()), k)
    {
      a := next;
      live := live[next := k];
      next := next + 1;
    }

    method Perform(op: FreeOp)
      modifies this
      ensures State() == Step(old(State()), op)
    {
      match op
      case ReadUninit =>
        faulted := true;
      case Dealloc(a, k) =>
        if a in live && live[a] == k {
          live := live - {a};
        } else {
          faulted := true;
        }
    }

    /** free(list->keys[i]) for slot `i` of a map's keys array. */
    method FreeKey(l: NodeList, i: nat)
      modifies this
      ensures State() == Releases(old(State()), KeyFree(l, i))
    {
      if i < |l.keys| {
        match l.keys[i]
        case KeyUninit => Perform(ReadUninit);
        case KeyNull =>
        case Key(a, _) => Perform(Dealloc(a, Malloc));
      } else {
        Perform(ReadUninit);
      }
    }

    /** freeMpvNode: releases what the node owns and leaves its format NONE. */
    method FreeMpvNode(s: Slot) returns (r: Slot)
      modifies this
      ensures r == Init(NNone)
      ensures State() == Releases(old(State()), FreeSeq(s))
      decreases s, 1
    {
      r := Init(NNone);
      ghost var h0 := State();
      match s
      case Uninit =>
        Perform(ReadUninit);
      case Init(n) =>
        if n.NString? {
          Perform(Dealloc(n.at, Malloc));
        } else if n.NArray? {
          FreeItems(n.list, false);
          ghost var hItems := State();
          Perform(Dealloc(n.list.valuesAt, NewArray));
          Perform(Dealloc(n.list.at, New));
          ReleasesTwo(hItems, Dealloc(n.list.valuesAt, NewArray), Dealloc(n.list.at, New));
          ReleasesAppend(h0, ItemsFreeSeq(n.list, false, |n.list.values|),
                         [Dealloc(n.list.valuesAt, NewArray), Dealloc(n.list.at, New)]);
        } else if n.NMap? {
          FreeItems(n.list, true);
          ghost var hItems := State();
          Perform(Dealloc(n.list.valuesAt, NewArray));
          Perform(Dealloc(n.list.keysAt, NewArray));
          Perform(Dealloc(n.list.at, New));
          ReleasesThree(hItems, Dealloc(n.list.valuesAt, NewArray), Dealloc(n.list.keysAt, NewArray), Dealloc(n.list.at, New));
          ReleasesAppend(h0, ItemsFreeSeq(n.list, true, |n.list.values|),
                         [Dealloc(n.list.valuesAt, NewArray), Dealloc(n.list.keysAt, NewArray), Dealloc(n.list.at, New)]);
        }
    }

    /** The element loop of freeMpvNode: for each element, its key (maps only), then the element. */
    method FreeItems(l: NodeList, isMap: bool)
      modifies this
      ensures State() == Releases(old(State()), ItemsFreeSeq(l, isMap, |l.values|))
      decreases l, 0
    {
      ghost var h0 := State();
      var i := 0;
      while i < |l.values|
        invariant 0 <= i <= |l.values|
        invariant State() == Releases(h0, ItemsFreeSeq(l, isMap, i))
      {
        ghost var before := State();
        if isMap {
          FreeKey(l, i);
        }
        ghost var keyOps := if isMap then KeyFree(l, i) else [];
        ghost var mid := State();
        assert mid == Releases(before, keyOps);
        var cleared := FreeMpvNode(l.values[i]);
        ItemsStep(h0, l, isMap, i);
        i := i + 1;
      }
    }

    /** variantToMpvNode: encodes `v` into the node `dst`, allocating arrays as `init` says. */
    method VariantToMpvNode(v: Value, dst: Slot, init: ArrayInit) returns (ok: bool, r: Slot)
      modifies this
      ensures Encoded(ok, r, State()) == EncodeSpec(v, dst, old(State()), init)
      decreases v, 1
    {
      match v
      case Bool(b) =>
        ok, r := true, Init(NFlag(if b then 1 else 0));
      case Int(i) =>
        ok, r := true, Init(NInt64(i as int as Int64));
      case LongLong(x) =>
        ok, r := true, Init(NInt64(x));
      case Double(d) =>
        ok, r := true, Init(NDouble(d));
      case Str(s) =>
        var a := Allocate(Malloc);
        ok, r := true, Init(NString(a, s));
      case List(_) =>
        ok, r := EncodeList(v, init);
      case Map(_) =>
        ok, r := EncodeMap(v, init);
      case Invalid =>
        ok, r := false, dst;
      case Other(_) =>
        ok, r := false, dst;
    }

    /** The list branch of variantToMpvNode. */
    method EncodeList(v: Value, init: ArrayInit) returns (ok: bool, r: Slot)
      requires v.List?
      modifies this
      ensures Encoded(ok, r, State()) == EncodeSpec(v, Uninit, old(State()), init)
      decreases v, 0
    {
      ghost var h0 := State();
      var items := v.items;
      var la := Allocate(New);
      var va := Allocate(NewArray);
      var l := NodeList(la, va, Fill(FreshSlot(init), |items|), 0, []);
      assert l == NewList(h0, |items|, init);
      ghost var f := FillItems(v, l, 0, State(), init);
      assert EncodeSpec(v, Uninit, h0, init) == Close(f, false);
      var i := 0;
      while i < |items|
        invariant 0 <= i <= |items| && |l.values| == |items|
        invariant FillItems(v, l, i, State(), init) == f
      {
        ghost var hb, lb := State(), l;
        var childOk, child := VariantToMpvNode(items[i], l.values[i], init);
        l := l.(values := l.values[i := child]);
        FillItemsStep(v, lb, i, hb, init);
        if !childOk {
          r := FreeMpvNode(Init(NArray(l)));
          return false, r;
        }
        i := i + 1;
      }
      ok, r := true, Init(NArray(l));
    }

    /** The map branch of variantToMpvNode. */
    method EncodeMap(v: Value, init: ArrayInit) returns (ok: bool, r: Slot)
      requires v.Map?
      modifies this
      ensures Encoded(ok, r, State()) == EncodeSpec(v, Uninit, old(State()), init)
      decreases v, 0
    {
      ghost var h0 := State();
      var es := v.entries;
      var la := Allocate(New);
      var va := Allocate(NewArray);
      var ka := Allocate(NewArray);
      var l := NodeList(la, va, Fill(FreshSlot(init), |es|), ka, Fill(FreshKey(init), |es|));
      assert l == NewMap(h0, |es|, init);
      ghost var f := FillEntries(v, l, 0, State(), init);
      assert EncodeSpec(v, Uninit, h0, init) == Close(f, true);
      var i := 0;
      while i < |es|
        invariant 0 <= i <= |es| && |l.values| == |es| && |l.keys| == |es|
        invariant FillEntries(v, l, i, State(), init) == f
      {
        ghost var hb, lb := State(), l;
        assert es[i] in es;
        var keyAt := Allocate(Malloc);
        l := l.(keys := l.keys[i := Key(keyAt, es[i].key)]);
        var childOk, child := VariantToMpvNode(es[i].value, l.values[i], init);
        l := l.(values := l.values[i := child]);
        FillEntriesStep(v, lb, i, hb, init);
        if !childOk {
          r := FreeMpvNode(Init(NMap(l)));
          return false, r;
        }
        i := i + 1;
      }
      ok, r := true, Init(NMap(l));
    }
  }

  /** The list case of EncodeSpec: allocate the shell, run the element loop, close. */
  lemma EncodeListUnfold(v: Value, dst: Slot, h: Heap, init: ArrayInit)
    requires v.List?
    ensures EncodeSpec(v, dst, h, init)
         == Close(FillItems(v, NewList(h, |v.items|, init), 0, Alloc(Alloc(h, New), NewArray), init), false)
  {
  }

  /** The map case of EncodeSpec. */
  lemma EncodeMapUnfold(v: Value, dst: Slot, h: Heap, init: ArrayInit)
    requires v.Map?
    ensures EncodeSpec(v, dst, h, init)
         == Close(FillEntries(v, NewMap(h, |v.entries|, init), 0, Alloc(Alloc(Alloc(h, New), NewArray), NewArray), init), true)
  {
  }

  /** One element of the list loop. */
  lemma FillItemsStep(v: Value, l: NodeList, i: nat, h: Heap, init: ArrayInit)
    requires v.List? && |l.values| == |v.items| && i < |v.items|
    ensures var c := EncodeSpec(v.items[i], l.values[i], h, init);
      var l' := l.(values := l.values[i := c.slot]);
      FillItems(v, l, i, h, init) == if c.ok then FillItems(v, l', i + 1, c.heap, init) else Filled(false, l', c.heap)
  {
  }

  /** One pair of the map loop. */
  lemma FillEntriesStep(v: Value, l: NodeList, i: nat, h: Heap, init: ArrayInit)
    requires v.Map? && |l.values| == |v.entries| && |l.keys| == |v.entries| && i < |v.entries|
    ensures var c := EncodeSpec(v.entries[i].value, l.values[i], Alloc(h, Malloc), init);
      var l' := l.(keys := l.keys[i := Key(h.next, v.entries[i].key)], values := l.values[i := c.slot]);
      FillEntries(v, l, i, h, init) == if c.ok then FillEntries(v, l', i + 1, c.heap, init) else Filled(false, l', c.heap)
  {
  }

  lemma ReleasesTwo(h: Heap, a: FreeOp, b: FreeOp)
    ensures Releases(h, [a, b]) == Step(Step(h, a), b)
  {
    assert [a, b][1..] == [b];
    assert [b][1..] == [];
    assert Releases(Step(h, a), [b]) == Releases(Step(Step(h, a), b), []);
  }

  lemma ReleasesThree(h: Heap, a: FreeOp, b: FreeOp, c: FreeOp)
    ensures Releases(h, [a, b, c]) == Step(Step(Step(h, a), b), c)
  {
    assert [a, b, c][1..] == [b, c];
    ReleasesTwo(Step(h, a), b, c);
  }

  /** One element more of the free loop. */
  lemma ItemsStep(h0: Heap, l: NodeList, isMap: bool, i: nat)
    requires i < |l.values|
    ensures Releases(h0, ItemsFreeSeq(l, isMap, i + 1))
         == Releases(Releases(Releases(h0, ItemsFreeSeq(l, isMap, i)), if isMap then KeyFree(l, i) else []),
                     FreeSeq(l.values[i]))
  {
    var keyOps := if isMap then KeyFree(l, i) else [];
    assert ItemsFreeSeq(l, isMap, i + 1) == ItemsFreeSeq(l, isMap, i) + keyOps + FreeSeq(l.values[i]);
    ReleasesAppend(h0, ItemsFreeSeq(l, isMap, i) + keyOps, FreeSeq(l.values[i]));
    ReleasesAppend(h0, ItemsFreeSeq(l, isMap, i), keyOps);
  }
}
