/**
 * What the marshaler achieves: which values encode, that decoding an encoded
 * value gives it back (ints widened), that freeing an encoded node releases
 * exactly the blocks encoding allocated, and what happens on failure with
 * default-initialised (as written) and value-initialised (corrected) arrays.
 */
module MarshalProofs {
  import opened Values
  import opened Native
  import opened Marshal

  // ---------------------------------------------------------------------
  // Which values encode.
  // ---------------------------------------------------------------------

  /**
   * Encoding succeeds exactly for values built from the seven supported kinds.
   * An unsupported scalar leaves the destination node and the heap untouched;
   * a container that fails is freed and left with format NONE.
   */
  lemma {:induction false} EncodeOkIffEncodable(v: Value, dst: Slot, h: Heap, init: ArrayInit)
    ensures EncodeSpec(v, dst, h, init).ok <==> Encodable(v)
    ensures (v.Invalid? || v.Other?) ==> EncodeSpec(v, dst, h, init) == Encoded(false, dst, h)
    ensures (v.List? || v.Map?) && !Encodable(v) ==> EncodeSpec(v, dst, h, init).slot == Init(NNone)
    decreases v, 1
  {
    match v
    case List(items) =>
      ItemsOk(v, NewList(h, |items|, init), 0, Alloc(Alloc(h, New), NewArray), init);
    case Map(es) =>
      EntriesOk(v, NewMap(h, |es|, init), 0, Alloc(Alloc(Alloc(h, New), NewArray), NewArray), init);
    case _ =>
  }

  lemma {:induction false} ItemsOk(v: Value, l: NodeList, i: nat, h: Heap, init: ArrayInit)
    requires v.List? && |l.values| == |v.items| && i <= |v.items|
    ensures FillItems(v, l, i, h, init).ok <==> forall j :: i <= j < |v.items| ==> Encodable(v.items[j])
    decreases v, 0, |v.items| - i
  {
    if i < |v.items| {
      var c := EncodeSpec(v.items[i], l.values[i], h, init);
      EncodeOkIffEncodable(v.items[i], l.values[i], h, init);
      if c.ok {
        ItemsStepOk(v, l, i, h, init);
        ItemsOk(v, l.(values := l.values[i := c.slot]), i + 1, c.heap, init);
      }
    }
  }

  lemma {:induction false} EntriesOk(v: Value, l: NodeList, i: nat, h: Heap, init: ArrayInit)
    requires v.Map? && |l.values| == |v.entries| && |l.keys| == |v.entries| && i <= |v.entries|
    ensures FillEntries(v, l, i, h, init).ok <==> forall j :: i <= j < |v.entries| ==> Encodable(v.entries[j].value)
    decreases v, 0, |v.entries| - i
  {
    if i < |v.entries| {
      var e := v.entries[i];
      assert e in v.entries;
      var c := EncodeSpec(e.value, l.values[i], Alloc(h, Malloc), init);
      EncodeOkIffEncodable(e.value, l.values[i], Alloc(h, Malloc), init);
      if c.ok {
        EntriesStepOk(v, l, i, h, init);
        EntriesOk(v, l.(keys := l.keys[i := Key(h.next, e.key)], values := l.values[i := c.slot]), i + 1, c.heap, init);
      }
    }
  }

  /** One successful element of the list loop. */
  lemma ItemsStepOk(v: Value, l: NodeList, i: nat, h: Heap, init: ArrayInit)
    requires v.List? && |l.values| == |v.items| && i < |v.items|
    requires EncodeSpec(v.items[i], l.values[i], h, init).ok
    ensures var c := EncodeSpec(v.items[i], l.values[i], h, init);
      FillItems(v, l, i, h, init) == FillItems(v, l.(values := l.values[i := c.slot]), i + 1, c.heap, init)
  {
  }

  /** One successful pair of the map loop. */
  lemma EntriesStepOk(v: Value, l: NodeList, i: nat, h: Heap, init: ArrayInit)
    requires v.Map? && |l.values| == |v.entries| && |l.keys| == |v.entries| && i < |v.entries|
    requires EncodeSpec(v.entries[i].value, l.values[i], Alloc(h, Malloc), init).ok
    ensures var c := EncodeSpec(v.entries[i].value, l.values[i], Alloc(h, Malloc), init);
      FillEntries(v, l, i, h, init)
        == FillEntries(v, l.(keys := l.keys[i := Key(h.next, v.entries[i].key)], values := l.values[i := c.slot]),
                       i + 1, c.heap, init)
  {
  }

  // ---------------------------------------------------------------------
  // Round trip: mpvPropertyToVariant after variantToMpvNode.
  // ---------------------------------------------------------------------

  /**
   * Decoding the node an encodable value was written to gives the value back,
   * with every int widened to qlonglong; maps come back in the same key order
   * and strings unchanged as long as they hold no NUL.
   */
  lemma {:induction false} RoundTrip(v: Value, dst: Slot, h: Heap, init: ArrayInit)
    requires Encodable(v) && WellFormed(v) && NulFree(v)
    ensures EncodeSpec(v, dst, h, init).ok
    ensures Readable(EncodeSpec(v, dst, h, init).slot)
    ensures Decode(EncodeSpec(v, dst, h, init).slot) == Widen(v)
    decreases v, 1
  {
    match v
    case List(_) => ListRoundTrip(v, dst, h, init);
    case Map(_) => MapRoundTrip(v, dst, h, init);
    case _ =>
  }

  lemma {:induction false} ListRoundTrip(v: Value, dst: Slot, h: Heap, init: ArrayInit)
    requires v.List? && Encodable(v) && WellFormed(v) && NulFree(v)
    ensures EncodeSpec(v, dst, h, init).ok
    ensures Readable(EncodeSpec(v, dst, h, init).slot)
    ensures Decode(EncodeSpec(v, dst, h, init).slot) == Widen(v)
    decreases v, 0, |v.items| + 1
  {
    var items := v.items;
    assert forall j :: 0 <= j < |items| ==> Transportable(items[j]);
    var f := FillItems(v, NewList(h, |items|, init), 0, Alloc(Alloc(h, New), NewArray), init);
    ItemsRoundTrip(v, NewList(h, |items|, init), 0, Alloc(Alloc(h, New), NewArray), init);
    ItemsDecode(items, f.list);
  }

  lemma {:induction false} MapRoundTrip(v: Value, dst: Slot, h: Heap, init: ArrayInit)
    requires v.Map? && Encodable(v) && WellFormed(v) && NulFree(v)
    ensures EncodeSpec(v, dst, h, init).ok
    ensures Readable(EncodeSpec(v, dst, h, init).slot)
    ensures Decode(EncodeSpec(v, dst, h, init).slot) == Widen(v)
    decreases v, 0, |v.entries| + 1
  {
    var es := v.entries;
    assert forall j :: 0 <= j < |es| ==> Transportable(es[j].value);
    var f := FillEntries(v, NewMap(h, |es|, init), 0, Alloc(Alloc(Alloc(h, New), NewArray), NewArray), init);
    EntriesRoundTrip(v, NewMap(h, |es|, init), 0, Alloc(Alloc(Alloc(h, New), NewArray), NewArray), init);
    PairsDecode(es, f.list);
  }

  /** An array whose slots decode to the widened elements decodes to the widened list. */
  lemma ItemsDecode(items: seq<Value>, lf: NodeList)
    requires |lf.values| == |items|
    requires forall j :: 0 <= j < |items| ==> DecodesTo(lf.values[j], items[j])
    ensures Readable(Init(NArray(lf))) && Decode(Init(NArray(lf))) == Widen(List(items))
  {
    assert forall j :: 0 <= j < |items| ==> Readable(lf.values[j]) by {
      forall j | 0 <= j < |items| ensures Readable(lf.values[j]) {
        assert DecodesTo(lf.values[j], items[j]);
      }
    }
    assert DecodeItems(lf) == Widen(List(items)).items by {
      forall j | 0 <= j < |items| ensures DecodeItems(lf)[j] == Widen(List(items)).items[j] {
        assert DecodesTo(lf.values[j], items[j]);
      }
    }
  }

  /**
   * A map whose keys and slots hold the ascending, NUL-free pairs `es` decodes
   * to the widened map: inserting already ordered keys one by one rebuilds them.
   */
  lemma PairsDecode(es: seq<Entry>, lf: NodeList)
    requires |lf.values| == |es| && |lf.keys| == |es| && Ascending(es)
    requires forall j :: 0 <= j < |es| ==> HoldsEntry(lf, j, es[j]) && '\0' !in es[j].key
    ensures Readable(Init(NMap(lf))) && Decode(Init(NMap(lf))) == Widen(Map(es))
  {
    assert forall j :: 0 <= j < |es| ==> lf.keys[j].Key? && Readable(lf.values[j]) by {
      forall j | 0 <= j < |es| ensures lf.keys[j].Key? && Readable(lf.values[j]) {
        assert HoldsEntry(lf, j, es[j]);
      }
    }
    var ps := DecodePairs(lf);
    assert ps == Widen(Map(es)).entries by {
      forall j | 0 <= j < |es| ensures ps[j] == Widen(Map(es)).entries[j] {
        assert HoldsEntry(lf, j, es[j]);
      }
    }
    assert Ascending([] + ps) by {
      assert [] + ps == ps;
      forall i, j | 0 <= i < j < |ps| ensures Less(ps[i].key, ps[j].key) {
        assert ps[i].key == es[i].key && ps[j].key == es[j].key;
      }
    }
    InsertAllAscending([], ps);
  }

  /** What the round trip needs of a value. */
  ghost predicate Transportable(w: Value)
  {
    Encodable(w) && WellFormed(w) && NulFree(w)
  }

  /** Slot `s` can be read and decodes to `w` widened. */
  ghost predicate DecodesTo(s: Slot, w: Value)
  {
    Readable(s) && Decode(s) == Widen(w)
  }

  /** Key `j` and slot `j` of `l` hold the pair `e`. */
  ghost predicate HoldsEntry(l: NodeList, j: nat, e: Entry)
  {
    j < |l.keys| && j < |l.values| &&
    l.keys[j].Key? && l.keys[j].chars == e.key && DecodesTo(l.values[j], e.value)
  }

  lemma {:induction false} ItemsRoundTrip(v: Value, l: NodeList, i: nat, h: Heap, init: ArrayInit)
    requires v.List? && |l.values| == |v.items| && i <= |v.items|
    requires forall j :: 0 <= j < |v.items| ==> Transportable(v.items[j])
    requires forall j :: 0 <= j < i ==> DecodesTo(l.values[j], v.items[j])
    ensures var f := FillItems(v, l, i, h, init);
      f.ok && |f.list.values| == |v.items| &&
      forall j :: 0 <= j < |v.items| ==> DecodesTo(f.list.values[j], v.items[j])
    decreases v, 0, |v.items| - i
  {
    if i < |v.items| {
      var c := EncodeSpec(v.items[i], l.values[i], h, init);
      RoundTrip(v.items[i], l.values[i], h, init);
      ItemsStepOk(v, l, i, h, init);
      var l' := l.(values := l.values[i := c.slot]);
      DecodesExtend(l, i, v.items, c.slot);
      ItemsRoundTrip(v, l', i + 1, c.heap, init);
    }
  }

  lemma {:induction false} EntriesRoundTrip(v: Value, l: NodeList, i: nat, h: Heap, init: ArrayInit)
    requires v.Map? && |l.values| == |v.entries| && |l.keys| == |v.entries| && i <= |v.entries|
    requires forall j :: 0 <= j < |v.entries| ==> Transportable(v.entries[j].value)
    requires forall j :: 0 <= j < i ==> HoldsEntry(l, j, v.entries[j])
    ensures var f := FillEntries(v, l, i, h, init);
      f.ok && |f.list.values| == |v.entries| && |f.list.keys| == |v.entries| &&
      forall j :: 0 <= j < |v.entries| ==> HoldsEntry(f.list, j, v.entries[j])
    decreases v, 0, |v.entries| - i
  {
    if i < |v.entries| {
      var e := v.entries[i];
      assert Transportable(e.value);
      var c := EncodeSpec(e.value, l.values[i], Alloc(h, Malloc), init);
      RoundTrip(e.value, l.values[i], Alloc(h, Malloc), init);
      assert DecodesTo(c.slot, e.value);
      EntriesStepOk(v, l, i, h, init);
      var l' := l.(keys := l.keys[i := Key(h.next, e.key)], values := l.values[i := c.slot]);
      HoldsExtend(l, i, v.entries, h.next, c.slot);
      EntriesRoundTrip(v, l', i + 1, c.heap, init);
    }
  }

  /** Filling slot `i` with the encoding of element `i` extends the decoded prefix. */
  lemma DecodesExtend(l: NodeList, i: nat, items: seq<Value>, s: Slot)
    requires i < |l.values| && i < |items|
    requires forall j :: 0 <= j < i ==> DecodesTo(l.values[j], items[j])
    requires DecodesTo(s, items[i])
    ensures forall j :: 0 <= j < i + 1 ==> DecodesTo(l.(values := l.values[i := s]).values[j], items[j])
  {
  }

  /** Filling key `i` and slot `i` with pair `i` extends the stored prefix. */
  lemma HoldsExtend(l: NodeList, i: nat, es: seq<Entry>, a: Addr, s: Slot)
    requires i < |l.values| && i < |l.keys| && i < |es|
    requires forall j :: 0 <= j < i ==> HoldsEntry(l, j, es[j])
    requires DecodesTo(s, es[i].value)
    ensures forall j :: 0 <= j < i + 1 ==>
      HoldsEntry(l.(keys := l.keys[i := Key(a, es[i].key)], values := l.values[i := s]), j, es[j])
  {
    var l' := l.(keys := l.keys[i := Key(a, es[i].key)], values := l.values[i := s]);
    forall j | 0 <= j < i + 1 ensures HoldsEntry(l', j, es[j]) {
      if j < i { assert HoldsEntry(l, j, es[j]); }
    }
  }

  // ---------------------------------------------------------------------
  // Ownership: what encoding allocates is exactly what freeing releases.
  // ---------------------------------------------------------------------

  /** The container shell of a list: the list record, then its values array. */
  lemma ListShell(h: Heap)
    requires HeapOk(h)
    ensures var h1 := Alloc(Alloc(h, New), NewArray);
      Grows(h, h1) && h1.next == h.next + 2 && Fresh(h1.next, h1.live) == map[] &&
      Owns([Dealloc(h.next + 1, NewArray), Dealloc(h.next, New)], Fresh(h.next, h1.live))
  {
    var ha := Alloc(h, New);
    var h1 := Alloc(ha, NewArray);
    AllocGrows(h, New);
    AllocGrows(ha, NewArray);
    GrowsTrans(h, ha, h1);
    FreshSplit(h.next, ha, h1);
    FreshNone(h1);
    OwnsTwo(h.next + 1, NewArray, h.next, New);
    assert Fresh(h.next, h1.live) == map[h.next + 1 := NewArray, h.next := New];
  }

  /** The container shell of a map: the list record, its values array, then its keys array. */
  lemma MapShell(h: Heap)
    requires HeapOk(h)
    ensures var h1 := Alloc(Alloc(Alloc(h, New), NewArray), NewArray);
      Grows(h, h1) && h1.next == h.next + 3 && Fresh(h1.next, h1.live) == map[] &&
      Owns([Dealloc(h.next + 1, NewArray), Dealloc(h.next + 2, NewArray), Dealloc(h.next, New)], Fresh(h.next, h1.live))
  {
    var ha := Alloc(Alloc(h, New), NewArray);
    var h1 := Alloc(ha, NewArray);
    ListShell(h);
    AllocGrows(ha, NewArray);
    GrowsTrans(h, ha, h1);
    FreshSplit(h.next, ha, h1);
    FreshNone(h1);
    OwnsThree(h.next + 1, NewArray, h.next + 2, NewArray, h.next, New);
    assert Fresh(h.next, h1.live) == map[h.next + 1 := NewArray, h.next + 2 := NewArray, h.next := New];
  }

  /**
   * Encoding only allocates, at fresh addresses. When it succeeds, the
   * releases of freeMpvNode on the result are exactly the new blocks; when it
   * fails with value-initialised arrays, every new block has already been
   * released and no undefined behaviour occurred.
   */
  lemma {:induction false} EncodeOwns(v: Value, dst: Slot, h: Heap, init: ArrayInit)
    requires HeapOk(h) && (Encodable(v) || init == ValueInit)
    ensures var e := EncodeSpec(v, dst, h, init);
      Grows(h, e.heap) &&
      (e.ok ==> Owns(FreeSeq(e.slot), Fresh(h.next, e.heap.live))) &&
      (!e.ok ==> e.heap.live == h.live)
    decreases v, 1
  {
    match v
    case Str(_) =>
      AllocGrows(h, Malloc);
      OwnsOne(h.next, Malloc);
    case List(_) =>
      ListOwns(v, h, init);
      EncodeListUnfold(v, dst, h, init);
    case Map(_) =>
      MapOwns(v, h, init);
      EncodeMapUnfold(v, dst, h, init);
    case _ =>
      FreshNone(h);
      assert Below(h.next, h.live) == h.live;
  }

  lemma {:induction false} ListOwns(v: Value, h: Heap, init: ArrayInit)
    requires HeapOk(h) && v.List? && (Encodable(v) || init == ValueInit)
    ensures var e := Close(FillItems(v, NewList(h, |v.items|, init), 0, Alloc(Alloc(h, New), NewArray), init), false);
      Grows(h, e.heap) &&
      (e.ok ==> Owns(FreeSeq(e.slot), Fresh(h.next, e.heap.live))) &&
      (!e.ok ==> e.heap.live == h.live)
    decreases v, 0, |v.items| + 1
  {
    var h1 := Alloc(Alloc(h, New), NewArray);
    var l := NewList(h, |v.items|, init);
    ListShell(h);
    ItemsOwn(v, l, 0, h1, init, h1.next);
    ListClose(h, h1, FillItems(v, l, 0, h1, init));
  }

  /** A list whose shell was allocated on `h` (giving `h1`) and whose elements own what was allocated after. */
  lemma ListClose(h: Heap, h1: Heap, f: Filled)
    requires HeapOk(h) && Grows(h, h1) && h.next <= h1.next && Grows(h1, f.heap)
    requires Owns([Dealloc(h.next + 1, NewArray), Dealloc(h.next, New)], Fresh(h.next, h1.live))
    requires f.list.at == h.next && f.list.valuesAt == h.next + 1
    requires Owns(ItemsFreeSeq(f.list, false, |f.list.values|), Fresh(h1.next, f.heap.live))
    ensures var e := Close(f, false);
      Grows(h, e.heap) &&
      (e.ok ==> Owns(FreeSeq(e.slot), Fresh(h.next, e.heap.live))) &&
      (!e.ok ==> e.heap.live == h.live)
  {
    var shell := [Dealloc(h.next + 1, NewArray), Dealloc(h.next, New)];
    OwnsGrow(shell, ItemsFreeSeq(f.list, false, |f.list.values|), h.next, h1, f.heap);
    FreeSeqArray(f.list, h.next);
    GrowsTrans(h, h1, f.heap);
    CloseOwns(h, f, false);
  }

  lemma {:induction false} MapOwns(v: Value, h: Heap, init: ArrayInit)
    requires HeapOk(h) && v.Map? && (Encodable(v) || init == ValueInit)
    ensures var e := Close(FillEntries(v, NewMap(h, |v.entries|, init), 0, Alloc(Alloc(Alloc(h, New), NewArray), NewArray), init), true);
      Grows(h, e.heap) &&
      (e.ok ==> Owns(FreeSeq(e.slot), Fresh(h.next, e.heap.live))) &&
      (!e.ok ==> e.heap.live == h.live)
    decreases v, 0, |v.entries| + 1
  {
    var h1 := Alloc(Alloc(Alloc(h, New), NewArray), NewArray);
    var l := NewMap(h, |v.entries|, init);
    MapShell(h);
    EntriesOwn(v, l, 0, h1, init, h1.next);
    MapClose(h, h1, FillEntries(v, l, 0, h1, init));
  }

  /** A map whose shell was allocated on `h` (giving `h1`) and whose pairs own what was allocated after. */
  lemma MapClose(h: Heap, h1: Heap, f: Filled)
    requires HeapOk(h) && Grows(h, h1) && h.next <= h1.next && Grows(h1, f.heap)
    requires Owns([Dealloc(h.next + 1, NewArray), Dealloc(h.next + 2, NewArray), Dealloc(h.next, New)], Fresh(h.next, h1.live))
    requires f.list.at == h.next && f.list.valuesAt == h.next + 1 && f.list.keysAt == h.next + 2
    requires Owns(ItemsFreeSeq(f.list, true, |f.list.values|), Fresh(h1.next, f.heap.live))
    ensures var e := Close(f, true);
      Grows(h, e.heap) &&
      (e.ok ==> Owns(FreeSeq(e.slot), Fresh(h.next, e.heap.live))) &&
      (!e.ok ==> e.heap.live == h.live)
  {
    var shell := [Dealloc(h.next + 1, NewArray), Dealloc(h.next + 2, NewArray), Dealloc(h.next, New)];
    OwnsGrow(shell, ItemsFreeSeq(f.list, true, |f.list.values|), h.next, h1, f.heap);
    FreeSeqMap(f.list, h.next);
    GrowsTrans(h, h1, f.heap);
    CloseOwns(h, f, true);
  }

  /** After the loop: a finished container is handed out; a stopped one is freed, giving the heap back. */
  lemma CloseOwns(h: Heap, f: Filled, isMap: bool)
    requires HeapOk(h) && Grows(h, f.heap)
    requires Owns(FreeSeq(Init(if isMap then NMap(f.list) else NArray(f.list))), Fresh(h.next, f.heap.live))
    ensures var e := Close(f, isMap);
      Grows(h, e.heap) &&
      (e.ok ==> Owns(FreeSeq(e.slot), Fresh(h.next, e.heap.live))) &&
      (!e.ok ==> e.heap.live == h.live)
  {
    if !f.ok {
      ReleasesFresh(h, f.heap, FreeSeq(Init(if isMap then NMap(f.list) else NArray(f.list))));
      assert Below(h.next, h.live) == h.live;
    }
  }

  /**
   * The list loop keeps "the elements so far own exactly the blocks allocated
   * since `base`"; slots not reached yet are still as allocated.
   */
  lemma {:induction false} ItemsOwn(v: Value, l: NodeList, i: nat, h: Heap, init: ArrayInit, base: Addr)
    requires v.List? && (Encodable(v) || init == ValueInit) && |l.values| == |v.items| && i <= |v.items|
    requires HeapOk(h) && base <= h.next
    requires forall j :: i <= j < |v.items| ==> l.values[j] == FreshSlot(init)
    requires Owns(ItemsFreeSeq(l, false, i), Fresh(base, h.live))
    ensures var f := FillItems(v, l, i, h, init);
      f.list.at == l.at && f.list.valuesAt == l.valuesAt && |f.list.values| == |v.items| &&
      Grows(h, f.heap) && Owns(ItemsFreeSeq(f.list, false, |v.items|), Fresh(base, f.heap.live))
    decreases v, 0, |v.items| - i, 1
  {
    if i == |v.items| {
      assert Grows(h, h);
    } else {
      var c := EncodeSpec(v.items[i], l.values[i], h, init);
      FillItemsStep(v, l, i, h, init);
      assert v.items[i] in v.items;
      EncodeOkIffEncodable(v.items[i], l.values[i], h, init);
      EncodeOwns(v.items[i], l.values[i], h, init);
      var l' := l.(values := l.values[i := c.slot]);
      ItemsOwnNext(v, l, i, h, init, base, c,
                   if c.ok then FillItems(v, l', i + 1, c.heap, init) else Filled(false, l', c.heap));
    }
  }

  /** ItemsOwn once element `i` has been encoded, with outcome `c`; `f` is where the loop ends. */
  lemma {:induction false} ItemsOwnNext(v: Value, l: NodeList, i: nat, h: Heap, init: ArrayInit, base: Addr, c: Encoded, f: Filled)
    requires v.List? && (Encodable(v) || init == ValueInit) && |l.values| == |v.items| && i < |v.items|
    requires HeapOk(h) && base <= h.next
    requires forall j :: i < j < |v.items| ==> l.values[j] == FreshSlot(init)
    requires Owns(ItemsFreeSeq(l, false, i), Fresh(base, h.live))
    requires Grows(h, c.heap)
    requires c.ok ==> Owns(FreeSeq(c.slot), Fresh(h.next, c.heap.live))
    requires !c.ok ==> c.heap.live == h.live && c.slot == Init(NNone) && init == ValueInit
    requires var l' := l.(values := l.values[i := c.slot]);
      f == if c.ok then FillItems(v, l', i + 1, c.heap, init) else Filled(false, l', c.heap)
    ensures f.list.at == l.at && f.list.valuesAt == l.valuesAt && |f.list.values| == |v.items| &&
      Grows(h, f.heap) && Owns(ItemsFreeSeq(f.list, false, |v.items|), Fresh(base, f.heap.live))
    decreases v, 0, |v.items| - i, 0
  {
    var l' := l.(values := l.values[i := c.slot]);
    if c.ok {
      ItemStepOwns(l, i, h, c.heap, c.slot, base);
      ItemsOwn(v, l', i + 1, c.heap, init, base);
      GrowsTrans(h, c.heap, f.heap);
    } else {
      ItemStopOwns(l, i, h, c.heap, base);
    }
  }

  /** A failing element, left NONE, with NONE slots after it: the blocks owned stay those of the prefix. */
  lemma ItemStopOwns(l: NodeList, i: nat, h: Heap, h2: Heap, base: Addr)
    requires i < |l.values| && HeapOk(h) && base <= h.next
    requires forall j :: i < j < |l.values| ==> l.values[j] == Init(NNone)
    requires Owns(ItemsFreeSeq(l, false, i), Fresh(base, h.live))
    requires Grows(h, h2) && h2.live == h.live
    ensures Owns(ItemsFreeSeq(l.(values := l.values[i := Init(NNone)]), false, |l.values|), Fresh(base, h2.live))
  {
    var l' := l.(values := l.values[i := Init(NNone)]);
    FreshNone(h);
    ItemStepOwns(l, i, h, h2, Init(NNone), base);
    ItemsFreeSeqIdle(l', false, i + 1, |l.values|);
  }

  lemma ItemStepOwns(l: NodeList, i: nat, h: Heap, h2: Heap, slot: Slot, base: Addr)
    requires i < |l.values| && HeapOk(h) && base <= h.next
    requires Owns(ItemsFreeSeq(l, false, i), Fresh(base, h.live))
    requires Grows(h, h2) && Owns(FreeSeq(slot), Fresh(h.next, h2.live))
    ensures Owns(ItemsFreeSeq(l.(values := l.values[i := slot]), false, i + 1), Fresh(base, h2.live))
  {
    ItemsFreeSeqSet(l, i, slot);
    OwnsGrow(ItemsFreeSeq(l, false, i), FreeSeq(slot), base, h, h2);
  }

  /** The map loop keeps the same, each key copy counted with its element. */
  lemma {:induction false} EntriesOwn(v: Value, l: NodeList, i: nat, h: Heap, init: ArrayInit, base: Addr)
    requires v.Map? && (Encodable(v) || init == ValueInit)
    requires |l.values| == |v.entries| && |l.keys| == |v.entries| && i <= |v.entries|
    requires HeapOk(h) && base <= h.next
    requires forall j :: i <= j < |v.entries| ==> l.values[j] == FreshSlot(init) && l.keys[j] == FreshKey(init)
    requires Owns(ItemsFreeSeq(l, true, i), Fresh(base, h.live))
    ensures var f := FillEntries(v, l, i, h, init);
      f.list.at == l.at && f.list.valuesAt == l.valuesAt && f.list.keysAt == l.keysAt &&
      |f.list.values| == |v.entries| &&
      Grows(h, f.heap) && Owns(ItemsFreeSeq(f.list, true, |v.entries|), Fresh(base, f.heap.live))
    decreases v, 0, |v.entries| - i, 2
  {
    if i == |v.entries| {
      assert Grows(h, h);
    } else {
      var en := v.entries[i];
      assert en in v.entries;
      var hk := Alloc(h, Malloc);
      var c := EncodeSpec(en.value, l.values[i], hk, init);
      FillEntriesStep(v, l, i, h, init);
      EncodeOkIffEncodable(en.value, l.values[i], hk, init);
      AllocGrows(h, Malloc);
      EncodeOwns(en.value, l.values[i], hk, init);
      var l' := l.(keys := l.keys[i := Key(h.next, en.key)], values := l.values[i := c.slot]);
      EntriesOwnNext(v, l, i, h, init, base, c,
                     if c.ok then FillEntries(v, l', i + 1, c.heap, init) else Filled(false, l', c.heap));
    }
  }

  /** EntriesOwn once key `i` has been copied and value `i` encoded, with outcome `c`; `f` is where the loop ends. */
  lemma {:induction false} EntriesOwnNext(v: Value, l: NodeList, i: nat, h: Heap, init: ArrayInit, base: Addr, c: Encoded, f: Filled)
    requires v.Map? && (Encodable(v) || init == ValueInit)
    requires |l.values| == |v.entries| && |l.keys| == |v.entries| && i < |v.entries|
    requires HeapOk(h) && base <= h.next
    requires forall j :: i < j < |v.entries| ==> l.values[j] == FreshSlot(init) && l.keys[j] == FreshKey(init)
    requires Owns(ItemsFreeSeq(l, true, i), Fresh(base, h.live))
    requires Grows(Alloc(h, Malloc), c.heap)
    requires c.ok ==> Owns(FreeSeq(c.slot), Fresh(Alloc(h, Malloc).next, c.heap.live))
    requires !c.ok ==> c.heap.live == Alloc(h, Malloc).live && c.slot == Init(NNone) && init == ValueInit
    requires var l' := l.(keys := l.keys[i := Key(h.next, v.entries[i].key)], values := l.values[i := c.slot]);
      f == if c.ok then FillEntries(v, l', i + 1, c.heap, init) else Filled(false, l', c.heap)
    ensures f.list.at == l.at && f.list.valuesAt == l.valuesAt && f.list.keysAt == l.keysAt &&
      |f.list.values| == |v.entries| &&
      Grows(h, f.heap) && Owns(ItemsFreeSeq(f.list, true, |v.entries|), Fresh(base, f.heap.live))
    decreases v, 0, |v.entries| - i, 1
  {
    var l' := l.(keys := l.keys[i := Key(h.next, v.entries[i].key)], values := l.values[i := c.slot]);
    if c.ok {
      EntryStepOwns(l, i, h, c.heap, v.entries[i].key, c.slot, base);
      EntriesOwnAfter(v, l, i, init, base, c.heap, Key(h.next, v.entries[i].key), c.slot);
      GrowsTrans(h, c.heap, f.heap);
    } else {
      EntryStopOwns(l, i, h, c.heap, v.entries[i].key, base);
    }
  }

  /** EntriesOwn from the entry after `i`, once key `i` and value `i` are in place. */
  lemma EntriesOwnAfter(v: Value, l: NodeList, i: nat, init: ArrayInit, base: Addr, h2: Heap, key: KeySlot, slot: Slot)
    requires v.Map? && (Encodable(v) || init == ValueInit)
    requires |l.values| == |v.entries| && |l.keys| == |v.entries| && i < |v.entries|
    requires HeapOk(h2) && base <= h2.next
    requires forall j :: i < j < |v.entries| ==> l.values[j] == FreshSlot(init) && l.keys[j] == FreshKey(init)
    requires Owns(ItemsFreeSeq(l.(keys := l.keys[i := key], values := l.values[i := slot]), true, i + 1), Fresh(base, h2.live))
    ensures var l' := l.(keys := l.keys[i := key], values := l.values[i := slot]);
      var f := FillEntries(v, l', i + 1, h2, init);
      f.list.at == l.at && f.list.valuesAt == l.valuesAt && f.list.keysAt == l.keysAt &&
      |f.list.values| == |v.entries| &&
      Grows(h2, f.heap) && Owns(ItemsFreeSeq(f.list, true, |v.entries|), Fresh(base, f.heap.live))
    decreases v, 0, |v.entries| - i, 0
  {
    var l' := l.(keys := l.keys[i := key], values := l.values[i := slot]);
    EntriesOwn(v, l', i + 1, h2, init, base);
  }

  /** A failing value, left NONE, after its key copy, with NONE slots and null keys after it. */
  lemma EntryStopOwns(l: NodeList, i: nat, h: Heap, h2: Heap, key: string, base: Addr)
    requires i < |l.values| == |l.keys| && HeapOk(h) && base <= h.next
    requires forall j :: i < j < |l.values| ==> l.values[j] == Init(NNone) && l.keys[j] == KeyNull
    requires Owns(ItemsFreeSeq(l, true, i), Fresh(base, h.live))
    requires Grows(Alloc(h, Malloc), h2) && h2.live == Alloc(h, Malloc).live
    ensures Grows(h, h2)
    ensures Owns(ItemsFreeSeq(l.(keys := l.keys[i := Key(h.next, key)], values := l.values[i := Init(NNone)]), true, |l.values|),
                 Fresh(base, h2.live))
  {
    var l' := l.(keys := l.keys[i := Key(h.next, key)], values := l.values[i := Init(NNone)]);
    var hk := Alloc(h, Malloc);
    AllocGrows(h, Malloc);
    FreshNone(hk);
    assert Fresh(hk.next, h2.live) == map[];
    assert Owns(FreeSeq(Init(NNone)), Fresh(hk.next, h2.live));
    EntryStepOwns(l, i, h, h2, key, Init(NNone), base);
    forall j | i + 1 <= j < |l'.values| ensures l'.values[j] == Init(NNone) && l'.keys[j] == KeyNull {
    }
    ItemsFreeSeqIdle(l', true, i + 1, |l.values|);
  }

  lemma EntryStepOwns(l: NodeList, i: nat, h: Heap, h2: Heap, key: string, slot: Slot, base: Addr)
    requires i < |l.values| && i < |l.keys| && HeapOk(h) && base <= h.next
    requires Owns(ItemsFreeSeq(l, true, i), Fresh(base, h.live))
    requires Grows(Alloc(h, Malloc), h2) && Owns(FreeSeq(slot), Fresh(Alloc(h, Malloc).next, h2.live))
    ensures Owns(ItemsFreeSeq(l.(keys := l.keys[i := Key(h.next, key)], values := l.values[i := slot]), true, i + 1),
                 Fresh(base, h2.live))
    ensures Grows(h, h2)
  {
    var hk := Alloc(h, Malloc);
    var prefix := ItemsFreeSeq(l, true, i);
    EntriesFreeSeqSet(l, i, h.next, key, slot);
    AllocGrows(h, Malloc);
    OwnsOne(h.next, Malloc);
    OwnsGrow(prefix, [Dealloc(h.next, Malloc)], base, h, hk);
    OwnsGrow(prefix + [Dealloc(h.next, Malloc)], FreeSeq(slot), base, hk, h2);
    GrowsTrans(h, hk, h2);
  }

  /**
   * variantToMpvNode followed by freeMpvNode on an encodable value: every
   * block the encoding allocated is released exactly once, with the matching
   * deallocator, and the heap is as before (fresh addresses aside).
   */
  lemma EncodeThenFree(v: Value, dst: Slot, h: Heap, init: ArrayInit)
    requires HeapOk(h) && Encodable(v)
    ensures EncodeSpec(v, dst, h, init).ok
    ensures Releases(EncodeSpec(v, dst, h, init).heap, FreeSeq(EncodeSpec(v, dst, h, init).slot))
         == Heap(h.live, EncodeSpec(v, dst, h, init).heap.next, h.faulted)
  {
    EncodeOkIffEncodable(v, dst, h, init);
    EncodeOwns(v, dst, h, init);
    ReleasesFresh(h, EncodeSpec(v, dst, h, init).heap, FreeSeq(EncodeSpec(v, dst, h, init).slot));
  }

  // ---------------------------------------------------------------------
  // Failure: what an unsupported value leaves behind.
  // ---------------------------------------------------------------------

  /**
   * As written (`new mpv_node[n]`, `new char *[n]`): a list whose first
   * element has an unsupported type fails, and freeing it on the way out
   * reads the never-initialised node of that element, which is undefined
   * behaviour, whatever the heap held before.
   */
  lemma UnsupportedFirstElementFaults(items: seq<Value>, dst: Slot, h: Heap)
    requires |items| > 0 && (items[0].Invalid? || items[0].Other?)
    ensures !EncodeSpec(List(items), dst, h, DefaultInit).ok
    ensures EncodeSpec(List(items), dst, h, DefaultInit).heap.faulted
  {
    var v := List(items);
    var h1 := Alloc(Alloc(h, New), NewArray);
    var l := NewList(h, |items|, DefaultInit);
    EncodeListUnfold(v, dst, h, DefaultInit);
    FillItemsStep(v, l, 0, h1, DefaultInit);
    var l' := l.(values := l.values[0 := Uninit]);
    assert FillItems(v, l, 0, h1, DefaultInit) == Filled(false, l', h1);
    FreeSeqArray(l', h.next);
    ItemsFreeSeqGrow(l', false, 1, |items|);
    assert ItemsFreeSeq(l', false, 1) == [ReadUninit];
    assert ReadUninit in FreeSeq(Init(NArray(l')));
    ReleasesKeepsFault(h1, FreeSeq(Init(NArray(l'))));
  }

  /**
   * Corrected (`new mpv_node[n]()`, `new char *[n]()`): a value that cannot be
   * encoded leaves every block as it was, with no undefined behaviour; a
   * container is left NONE and anything else leaves the destination untouched.
   */
  lemma EncodeFailureLeavesHeap(v: Value, dst: Slot, h: Heap)
    requires HeapOk(h) && !Encodable(v)
    ensures var e := EncodeSpec(v, dst, h, ValueInit);
      !e.ok && e.heap.live == h.live && e.heap.faulted == h.faulted &&
      e.slot == (if v.List? || v.Map? then Init(NNone) else dst)
  {
    EncodeOkIffEncodable(v, dst, h, ValueInit);
    EncodeOwns(v, dst, h, ValueInit);
  }

  // ---------------------------------------------------------------------
  // The source as written against the corrected form.
  // ---------------------------------------------------------------------

  /** Two node lists with the same shape and the same slots and keys below `i`. */
  ghost predicate SameBelow(l1: NodeList, l2: NodeList, i: nat)
  {
    l1.at == l2.at && l1.valuesAt == l2.valuesAt && l1.keysAt == l2.keysAt &&
    |l1.values| == |l2.values| && |l1.keys| == |l2.keys| &&
    (forall j :: 0 <= j < i && j < |l1.values| ==> l1.values[j] == l2.values[j]) &&
    (forall j :: 0 <= j < i && j < |l1.keys| ==> l1.keys[j] == l2.keys[j])
  }

  /**
   * On every supported value, default-initialised arrays (the source as
   * written) and value-initialised ones encode to the same node on the same
   * heap: every slot is written before it is read, and the destination of a
   * supported value is never read.
   */
  lemma {:induction false} InitIrrelevant(v: Value, d1: Slot, d2: Slot, h: Heap)
    requires Encodable(v)
    ensures EncodeSpec(v, d1, h, DefaultInit) == EncodeSpec(v, d2, h, ValueInit)
    decreases v, 1
  {
    match v
    case List(items) =>
      ItemsInitIrrelevant(v, NewList(h, |items|, DefaultInit), NewList(h, |items|, ValueInit), 0,
                          Alloc(Alloc(h, New), NewArray));
    case Map(es) =>
      EntriesInitIrrelevant(v, NewMap(h, |es|, DefaultInit), NewMap(h, |es|, ValueInit), 0,
                            Alloc(Alloc(Alloc(h, New), NewArray), NewArray));
    case _ =>
  }

  lemma {:induction false} ItemsInitIrrelevant(v: Value, l1: NodeList, l2: NodeList, i: nat, h: Heap)
    requires v.List? && Encodable(v) && |l1.values| == |v.items| && i <= |v.items|
    requires l1.keys == l2.keys && SameBelow(l1, l2, i)
    ensures FillItems(v, l1, i, h, DefaultInit) == FillItems(v, l2, i, h, ValueInit)
    decreases v, 0, |v.items| - i
  {
    if i == |v.items| {
      assert l1.values == l2.values;
    } else {
      var x := v.items[i];
      InitIrrelevant(x, l1.values[i], l2.values[i], h);
      EncodeOkIffEncodable(x, l1.values[i], h, DefaultInit);
      var c := EncodeSpec(x, l1.values[i], h, DefaultInit);
      ItemsInitIrrelevant(v, l1.(values := l1.values[i := c.slot]), l2.(values := l2.values[i := c.slot]), i + 1, c.heap);
    }
  }

  lemma {:induction false} EntriesInitIrrelevant(v: Value, l1: NodeList, l2: NodeList, i: nat, h: Heap)
    requires v.Map? && Encodable(v) && |l1.values| == |v.entries| && |l1.keys| == |v.entries| && i <= |v.entries|
    requires SameBelow(l1, l2, i)
    ensures FillEntries(v, l1, i, h, DefaultInit) == FillEntries(v, l2, i, h, ValueInit)
    decreases v, 0, |v.entries| - i
  {
    if i == |v.entries| {
      assert l1.values == l2.values;
      assert l1.keys == l2.keys;
    } else {
      var e := v.entries[i];
      assert e in v.entries;
      var h1 := Alloc(h, Malloc);
      InitIrrelevant(e.value, l1.values[i], l2.values[i], h1);
      EncodeOkIffEncodable(e.value, l1.values[i], h1, DefaultInit);
      var c := EncodeSpec(e.value, l1.values[i], h1, DefaultInit);
      var k := Key(h.next, e.key);
      EntriesInitIrrelevant(v, l1.(keys := l1.keys[i := k], values := l1.values[i := c.slot]),
                            l2.(keys := l2.keys[i := k], values := l2.values[i := c.slot]), i + 1, c.heap);
    }
  }

  /**
   * As written, every list or map that fails to encode faults: the innermost
   * unsupported element is left in a slot that was never initialised, and
   * the clean-up reads it.
   */
  lemma {:induction false} FailingContainerFaults(v: Value, dst: Slot, h: Heap)
    requires (v.List? || v.Map?) && !Encodable(v)
    ensures !EncodeSpec(v, dst, h, DefaultInit).ok
    ensures EncodeSpec(v, dst, h, DefaultInit).heap.faulted
    decreases v, 1
  {
    EncodeOkIffEncodable(v, dst, h, DefaultInit);
    if v.List? {
      var l := NewList(h, |v.items|, DefaultInit);
      var j :| 0 <= j < |v.items| && !Encodable(v.items[j]);
      ItemsFault(v, l, 0, Alloc(Alloc(h, New), NewArray), j);
      var f := FillItems(v, l, 0, Alloc(Alloc(h, New), NewArray), DefaultInit);
      ReleasesKeepsFault(f.heap, FreeSeq(Init(NArray(f.list))));
    } else {
      var l := NewMap(h, |v.entries|, DefaultInit);
      var j :| 0 <= j < |v.entries| && !Encodable(v.entries[j].value);
      EntriesFault(v, l, 0, Alloc(Alloc(Alloc(h, New), NewArray), NewArray), j);
      var f := FillEntries(v, l, 0, Alloc(Alloc(Alloc(h, New), NewArray), NewArray), DefaultInit);
      ReleasesKeepsFault(f.heap, FreeSeq(Init(NMap(f.list))));
    }
  }

  /** The list fill stops at or before the unsupported element `j`, leaving a fault or an uninitialised slot behind. */
  lemma {:induction false} ItemsFault(v: Value, l: NodeList, i: nat, h: Heap, j: nat)
    requires v.List? && |l.values| == |v.items| && i <= j < |v.items| && !Encodable(v.items[j])
    requires forall k :: i <= k < |l.values| ==> l.values[k] == Uninit
    ensures var f := FillItems(v, l, i, h, DefaultInit);
      !f.ok && |f.list.values| == |v.items| &&
      (f.heap.faulted || ReadUninit in ItemsFreeSeq(f.list, false, |f.list.values|))
    decreases v, 0, |v.items| - i
  {
    var x := v.items[i];
    var c := EncodeSpec(x, Uninit, h, DefaultInit);
    var l' := l.(values := l.values[i := c.slot]);
    EncodeOkIffEncodable(x, Uninit, h, DefaultInit);
    if Encodable(x) {
      ItemsFault(v, l', i + 1, c.heap, j);
    } else if x.List? || x.Map? {
      FailingContainerFaults(x, Uninit, h);
    } else {
      assert ItemsFreeSeq(l', false, i + 1) == ItemsFreeSeq(l', false, i) + [] + [ReadUninit];
      ItemsFreeSeqGrow(l', false, i + 1, |l'.values|);
      UninitInPrefix(ItemsFreeSeq(l', false, i + 1), ItemsFreeSeq(l', false, |l'.values|));
    }
  }

  /** The map fill stops at or before the unsupported value `j`, leaving a fault or an uninitialised slot behind. */
  lemma {:induction false} EntriesFault(v: Value, l: NodeList, i: nat, h: Heap, j: nat)
    requires v.Map? && |l.values| == |v.entries| && |l.keys| == |v.entries|
    requires i <= j < |v.entries| && !Encodable(v.entries[j].value)
    requires forall k :: i <= k < |l.values| ==> l.values[k] == Uninit
    ensures var f := FillEntries(v, l, i, h, DefaultInit);
      !f.ok && |f.list.values| == |v.entries| &&
      (f.heap.faulted || ReadUninit in ItemsFreeSeq(f.list, true, |f.list.values|))
    decreases v, 0, |v.entries| - i
  {
    var e := v.entries[i];
    assert e in v.entries;
    var c := EncodeSpec(e.value, Uninit, Alloc(h, Malloc), DefaultInit);
    var l' := l.(keys := l.keys[i := Key(h.next, e.key)], values := l.values[i := c.slot]);
    EncodeOkIffEncodable(e.value, Uninit, Alloc(h, Malloc), DefaultInit);
    if Encodable(e.value) {
      EntriesFault(v, l', i + 1, c.heap, j);
    } else if e.value.List? || e.value.Map? {
      FailingContainerFaults(e.value, Uninit, Alloc(h, Malloc));
    } else {
      assert ItemsFreeSeq(l', true, i + 1) == ItemsFreeSeq(l', true, i) + KeyFree(l', i) + [ReadUninit];
      ItemsFreeSeqGrow(l', true, i + 1, |l'.values|);
      UninitInPrefix(ItemsFreeSeq(l', true, i + 1), ItemsFreeSeq(l', true, |l'.values|));
    }
  }

  lemma UninitInPrefix(a: seq<FreeOp>, b: seq<FreeOp>)
    requires |a| > 0 && a[|a| - 1] == ReadUninit && a <= b
    ensures ReadUninit in b
  {
    assert b[|a| - 1] == ReadUninit;
  }
}
