/**
 * libmpv's native value, `mpv_node`: a tagged union whose container forms own
 * a heap-allocated `mpv_node_list` with a values array and (for maps) a keys
 * array. Every slot of those arrays is either initialised or still holding
 * whatever `new T[n]` left there, so slot initialisation is explicit.
 *
 * The C heap is a map from live addresses to the allocator that produced them
 * (malloc, new, new[]), a bump counter for fresh addresses, and a sticky
 * `faulted` flag that records undefined behaviour: releasing an address that
 * is not live, releasing with the wrong deallocator, or reading an
 * uninitialised slot.
 */
module Native {
  import opened Values

  type Addr = nat

  /** Which allocator produced a block; its deallocator must match (free, delete, delete[]). */
  datatype Kind = Malloc | New | NewArray

  /** The mpv_format codes of libmpv's client API. */
  const FORMAT_NONE := 0
  const FORMAT_STRING := 1
  const FORMAT_FLAG := 3
  const FORMAT_INT64 := 4
  const FORMAT_DOUBLE := 5
  const FORMAT_NODE := 6
  const FORMAT_NODE_ARRAY := 7
  const FORMAT_NODE_MAP := 8

  /** The six formats the bridge decodes. */
  const HandledFormats: set<int> := {FORMAT_STRING, FORMAT_FLAG, FORMAT_INT64, FORMAT_DOUBLE, FORMAT_NODE_ARRAY, FORMAT_NODE_MAP}

  /** Any other format code the engine may use (OSD_STRING, NODE, BYTE_ARRAY, future ones). */
  type OtherFormat = c: int | c != FORMAT_NONE && c !in HandledFormats witness 2

  datatype Node =
    | NNone
    | NString(at: Addr, chars: string)
    | NFlag(flag: Int32)
    | NInt64(int64: Int64)
    | NDouble(dbl: real)
    | NArray(list: NodeList)
    | NMap(list: NodeList)
    | NOther(format: OtherFormat)

  /** `mpv_node_list`: its own address, the values array and the keys array (unused for arrays). */
  datatype NodeList = NodeList(at: Addr, valuesAt: Addr, values: seq<Slot>, keysAt: Addr, keys: seq<KeySlot>)

  /** One `mpv_node` element of a values array. */
  datatype Slot = Uninit | Init(node: Node)

  /** One `char *` element of a keys array. */
  datatype KeySlot = KeyUninit | KeyNull | Key(at: Addr, chars: string)

  function Format(n: Node): (c: int)
    ensures c == FORMAT_NONE <==> n.NNone?
  {
    match n
    case NNone => FORMAT_NONE
    case NString(_, _) => FORMAT_STRING
    case NFlag(_) => FORMAT_FLAG
    case NInt64(_) => FORMAT_INT64
    case NDouble(_) => FORMAT_DOUBLE
    case NArray(_) => FORMAT_NODE_ARRAY
    case NMap(_) => FORMAT_NODE_MAP
    case NOther(c) => c
  }

  // ---------------------------------------------------------------------
  // Decoding (mpvPropertyToVariant).
  // ---------------------------------------------------------------------

  /** QString::fromUtf8 of a C string: the text up to the first NUL. */
  function CString(cs: string): (r: string)
    ensures '\0' !in cs ==> r == cs
    ensures |r| <= |cs| && r == cs[..|r|] && '\0' !in r
  {
    if |cs| == 0 || cs[0] == '\0' then "" else [cs[0]] + CString(cs[1..])
  }

  /** A tree every slot and key of which the decoder may read. */
  ghost predicate Readable(s: Slot)
    decreases s
  {
    match s
    case Uninit => false
    case Init(n) =>
      match n
      case NArray(l) => forall j :: 0 <= j < |l.values| ==> Readable(l.values[j])
      case NMap(l) =>
        |l.keys| == |l.values| &&
        forall j :: 0 <= j < |l.values| ==> l.keys[j].Key? && Readable(l.values[j])
      case _ => true
  }

  /**
   * mpvPropertyToVariant: strings, flags, 64-bit integers, doubles, arrays and
   * maps are translated (map pairs inserted one by one into a QVariantMap);
   * every other format gives an invalid QVariant.
   */
  function Decode(s: Slot): (r: Value)
    requires Readable(s)
    ensures r == Invalid <==> Format(s.node) !in HandledFormats
    decreases s, 1
  {
    match s.node
    case NString(_, cs) => Str(CString(cs))
    case NFlag(f) => Bool(f != 0)
    case NInt64(x) => LongLong(x)
    case NDouble(d) => Double(d)
    case NArray(l) => List(DecodeItems(l))
    case NMap(l) => Map(InsertAll([], DecodePairs(l)))
    case NNone => Invalid
    case NOther(_) => Invalid
  }

  /** The elements of an array, decoded in index order. */
  function DecodeItems(l: NodeList): (r: seq<Value>)
    requires forall j :: 0 <= j < |l.values| ==> Readable(l.values[j])
    ensures |r| == |l.values|
    decreases l, 0
  {
    seq(|l.values|, j requires 0 <= j < |l.values| => Decode(l.values[j]))
  }

  /** The pairs of a map, decoded in index order, before they are inserted into a QVariantMap. */
  function DecodePairs(l: NodeList): (r: seq<Entry>)
    requires |l.keys| == |l.values| && forall j :: 0 <= j < |l.values| ==> l.keys[j].Key? && Readable(l.values[j])
    ensures |r| == |l.values|
    decreases l, 0
  {
    seq(|l.values|, j requires 0 <= j < |l.values| => Entry(CString(l.keys[j].chars), Decode(l.values[j])))
  }

  // ---------------------------------------------------------------------
  // The C heap.
  // ---------------------------------------------------------------------

  datatype Heap = Heap(live: map<Addr, Kind>, next: Addr, faulted: bool)

  /** Every live block lies below the next fresh address. */
  ghost predicate HeapOk(h: Heap)
  {
    forall a :: a in h.live ==> a < h.next
  }

  /** One allocation: a fresh address of the given kind. */
  function Alloc(h: Heap, k: Kind): (r: Heap)
    ensures r.next == h.next + 1 && r.faulted == h.faulted
    ensures HeapOk(h) ==> HeapOk(r) && h.next !in h.live
  {
    Heap(h.live[h.next := k], h.next + 1, h.faulted)
  }

  /** One step of releasing memory. */
  datatype FreeOp = Dealloc(addr: Addr, kind: Kind) | ReadUninit

  function Step(h: Heap, op: FreeOp): (r: Heap)
    ensures r.next == h.next
    ensures h.faulted ==> r.faulted
  {
    match op
    case ReadUninit => h.(faulted := true)
    case Dealloc(a, k) =>
      if a in h.live && h.live[a] == k then h.(live := h.live - {a}) else h.(faulted := true)
  }

  function Releases(h: Heap, ops: seq<FreeOp>): (r: Heap)
    ensures r.next == h.next
    decreases |ops|
  {
    if |ops| == 0 then h else Releases(Step(h, ops[0]), ops[1..])
  }

  lemma {:induction false} ReleasesAppend(h: Heap, a: seq<FreeOp>, b: seq<FreeOp>)
    ensures Releases(h, a + b) == Releases(Releases(h, a), b)
    decreases |a|
  {
    if |a| > 0 {
      assert (a + b)[1..] == a[1..] + b;
      ReleasesAppend(Step(h, a[0]), a[1..], b);
    } else {
      assert a + b == b;
    }
  }

  /** Undefined behaviour, once recorded, stays recorded. */
  lemma {:induction false} ReleasesKeepsFault(h: Heap, ops: seq<FreeOp>)
    requires h.faulted || ReadUninit in ops
    ensures Releases(h, ops).faulted
    decreases |ops|
  {
    if |ops| > 0 {
      if !h.faulted && ops[0] != ReadUninit {
        assert ReadUninit in ops[1..];
      }
      ReleasesKeepsFault(Step(h, ops[0]), ops[1..]);
    }
  }

  /**
   * `ops` releases each block of `owned` exactly once, with its own
   * deallocator, and nothing else.
   */
  ghost predicate Owns(ops: seq<FreeOp>, owned: map<Addr, Kind>)
    decreases |ops|
  {
    if |ops| == 0 then owned == map[]
    else
      ops[0].Dealloc? && ops[0].addr in owned && owned[ops[0].addr] == ops[0].kind &&
      Owns(ops[1..], owned - {ops[0].addr})
  }

  /** Releasing blocks the heap holds, each once with the right deallocator, removes exactly those. */
  lemma {:induction false} ReleasesOwned(h: Heap, ops: seq<FreeOp>, owned: map<Addr, Kind>)
    requires Owns(ops, owned)
    requires forall a :: a in owned ==> a in h.live && h.live[a] == owned[a]
    ensures Releases(h, ops) == h.(live := h.live - owned.Keys)
    decreases |ops|
  {
    if |ops| == 0 {
      assert h.live - owned.Keys == h.live;
    } else {
      var a := ops[0].addr;
      ReleasesOwned(Step(h, ops[0]), ops[1..], owned - {a});
      assert h.live - {a} - (owned - {a}).Keys == h.live - owned.Keys;
    }
  }

  lemma {:induction false} OwnsAppend(a: seq<FreeOp>, b: seq<FreeOp>, ma: map<Addr, Kind>, mb: map<Addr, Kind>)
    requires Owns(a, ma) && Owns(b, mb) && ma.Keys !! mb.Keys
    ensures Owns(a + b, ma + mb) && ma + mb == mb + ma
    decreases |a|
  {
    assert ma + mb == mb + ma;
    if |a| == 0 {
      assert a + b == b;
      assert ma + mb == mb;
    } else {
      var x := a[0].addr;
      OwnsAppend(a[1..], b, ma - {x}, mb);
      assert (a + b)[1..] == a[1..] + b;
      assert (ma + mb) - {x} == (ma - {x}) + mb;
    }
  }

  lemma OwnsOne(a: Addr, k: Kind)
    ensures Owns([Dealloc(a, k)], map[a := k])
  {
    assert [Dealloc(a, k)][1..] == [];
    assert map[a := k] - {a} == map[];
  }

  lemma OwnsTwo(a: Addr, ka: Kind, b: Addr, kb: Kind)
    requires a != b
    ensures Owns([Dealloc(a, ka), Dealloc(b, kb)], map[a := ka, b := kb])
  {
    assert map[a := ka, b := kb] - {a} == map[b := kb];
    assert [Dealloc(a, ka), Dealloc(b, kb)][1..] == [Dealloc(b, kb)];
    OwnsOne(b, kb);
  }

  lemma OwnsThree(a: Addr, ka: Kind, b: Addr, kb: Kind, c: Addr, kc: Kind)
    requires a != b && a != c && b != c
    ensures Owns([Dealloc(a, ka), Dealloc(b, kb), Dealloc(c, kc)], map[a := ka, b := kb, c := kc])
  {
    assert map[a := ka, b := kb, c := kc] - {a} == map[b := kb, c := kc];
    assert [Dealloc(a, ka), Dealloc(b, kb), Dealloc(c, kc)][1..] == [Dealloc(b, kb), Dealloc(c, kc)];
    OwnsTwo(b, kb, c, kc);
  }

  /** The blocks of `live` at or above `lo`. */
  function Fresh(lo: Addr, live: map<Addr, Kind>): map<Addr, Kind>
  {
    map a | a in live && lo <= a :: live[a]
  }

  /** The blocks of `live` below `hi`. */
  function Below(hi: Addr, live: map<Addr, Kind>): map<Addr, Kind>
  {
    map a | a in live && a < hi :: live[a]
  }

  /** `h2` is `h` with some blocks allocated at fresh addresses and nothing released. */
  ghost predicate Grows(h: Heap, h2: Heap)
  {
    HeapOk(h2) && h.next <= h2.next && h2.faulted == h.faulted && Below(h.next, h2.live) == h.live
  }

  lemma GrowsTrans(h1: Heap, h2: Heap, h3: Heap)
    requires Grows(h1, h2) && Grows(h2, h3)
    ensures Grows(h1, h3)
  {
    assert Below(h1.next, h3.live) == Below(h1.next, h2.live);
  }

  lemma AllocGrows(h: Heap, k: Kind)
    requires HeapOk(h)
    ensures Grows(h, Alloc(h, k))
    ensures Fresh(h.next, Alloc(h, k).live) == map[h.next := k]
  {
    assert Below(h.next, Alloc(h, k).live) == h.live;
    assert Fresh(h.next, Alloc(h, k).live).Keys == {h.next};
  }

  /** The blocks above `lo` after growing: those that were there, plus the new ones. */
  lemma FreshSplit(lo: Addr, h: Heap, h2: Heap)
    requires HeapOk(h) && Grows(h, h2) && lo <= h.next
    ensures Fresh(lo, h.live).Keys !! Fresh(h.next, h2.live).Keys
    ensures Fresh(lo, h2.live) == Fresh(lo, h.live) + Fresh(h.next, h2.live)
  {
    assert forall a :: a in h.live ==> a in h2.live && h2.live[a] == h.live[a] by {
      forall a | a in h.live ensures a in h2.live && h2.live[a] == h.live[a] {
        assert a in Below(h.next, h2.live);
      }
    }
    assert Fresh(lo, h2.live).Keys == Fresh(lo, h.live).Keys + Fresh(h.next, h2.live).Keys;
  }

  /**
   * Releases owning the blocks above `lo` before a growth, together with
   * releases owning the blocks the growth added, own the blocks above `lo`
   * after it, in either order.
   */
  lemma OwnsGrow(a: seq<FreeOp>, b: seq<FreeOp>, lo: Addr, h: Heap, h2: Heap)
    requires HeapOk(h) && Grows(h, h2) && lo <= h.next
    requires Owns(a, Fresh(lo, h.live)) && Owns(b, Fresh(h.next, h2.live))
    ensures Owns(a + b, Fresh(lo, h2.live)) && Owns(b + a, Fresh(lo, h2.live))
  {
    FreshSplit(lo, h, h2);
    OwnsAppend(a, b, Fresh(lo, h.live), Fresh(h.next, h2.live));
    OwnsAppend(b, a, Fresh(h.next, h2.live), Fresh(lo, h.live));
  }

  lemma FreshNone(h: Heap)
    requires HeapOk(h)
    ensures Fresh(h.next, h.live) == map[]
  {
  }

  /** Releasing exactly the blocks a growth added gives the original live set back. */
  lemma {:induction false} ReleasesFresh(h: Heap, h2: Heap, ops: seq<FreeOp>)
    requires HeapOk(h) && Grows(h, h2) && Owns(ops, Fresh(h.next, h2.live))
    ensures Releases(h2, ops) == Heap(h.live, h2.next, h.faulted)
  {
    ReleasesOwned(h2, ops, Fresh(h.next, h2.live));
    assert h2.live - Fresh(h.next, h2.live).Keys == h.live;
  }

  // ---------------------------------------------------------------------
  // What freeMpvNode releases, in order.
  // ---------------------------------------------------------------------

  /** The key slot `j` of a map, as `free(list->keys[j])` sees it. */
  function KeyFree(l: NodeList, j: nat): seq<FreeOp>
  {
    if j < |l.keys| then
      match l.keys[j]
      case KeyUninit => [ReadUninit]
      case KeyNull => []
      case Key(a, _) => [Dealloc(a, Malloc)]
    else [ReadUninit]
  }

  /**
   * freeMpvNode on one slot: a string is freed; a container frees, for each
   * element in order, its key (maps only) and then the element itself, and
   * only afterwards its values array, its keys array (maps only) and the list;
   * every other format owns nothing. An uninitialised slot is read anyway.
   */
  function FreeSeq(s: Slot): seq<FreeOp>
    decreases s, 0
  {
    match s
    case Uninit => [ReadUninit]
    case Init(n) =>
      match n
      case NString(a, _) => [Dealloc(a, Malloc)]
      case NArray(l) =>
        ItemsFreeSeq(l, false, |l.values|) + [Dealloc(l.valuesAt, NewArray), Dealloc(l.at, New)]
      case NMap(l) =>
        ItemsFreeSeq(l, true, |l.values|)
          + [Dealloc(l.valuesAt, NewArray), Dealloc(l.keysAt, NewArray), Dealloc(l.at, New)]
      case _ => []
  }

  /** freeMpvNode on a list whose record is at `a` and values array at `a + 1`. */
  lemma FreeSeqArray(l: NodeList, a: Addr)
    requires l.at == a && l.valuesAt == a + 1
    ensures FreeSeq(Init(NArray(l))) == ItemsFreeSeq(l, false, |l.values|) + [Dealloc(a + 1, NewArray), Dealloc(a, New)]
  {
  }

  /** freeMpvNode on a map whose record is at `a`, values array at `a + 1` and keys array at `a + 2`. */
  lemma FreeSeqMap(l: NodeList, a: Addr)
    requires l.at == a && l.valuesAt == a + 1 && l.keysAt == a + 2
    ensures FreeSeq(Init(NMap(l)))
         == ItemsFreeSeq(l, true, |l.values|) + [Dealloc(a + 1, NewArray), Dealloc(a + 2, NewArray), Dealloc(a, New)]
  {
  }

  /** The releases for the first `i` elements of a container. */
  function ItemsFreeSeq(l: NodeList, isMap: bool, i: nat): seq<FreeOp>
    requires i <= |l.values|
    decreases l, i
  {
    if i == 0 then []
    else ItemsFreeSeq(l, isMap, i - 1) + (if isMap then KeyFree(l, i - 1) else []) + FreeSeq(l.values[i - 1])
  }

  /** Filling slot `i` of a list adds that element's releases. */
  lemma ItemsFreeSeqSet(l: NodeList, i: nat, s: Slot)
    requires i < |l.values|
    ensures ItemsFreeSeq(l.(values := l.values[i := s]), false, i + 1) == ItemsFreeSeq(l, false, i) + FreeSeq(s)
  {
    var l' := l.(values := l.values[i := s]);
    ItemsFreeSeqPrefix(l, l', false, i);
    assert ItemsFreeSeq(l', false, i + 1) == ItemsFreeSeq(l', false, i) + [] + FreeSeq(s);
  }

  /** Filling key `i` and slot `i` of a map adds the key's release and then the element's. */
  lemma EntriesFreeSeqSet(l: NodeList, i: nat, a: Addr, k: string, s: Slot)
    requires i < |l.values| && i < |l.keys|
    ensures ItemsFreeSeq(l.(keys := l.keys[i := Key(a, k)], values := l.values[i := s]), true, i + 1)
         == ItemsFreeSeq(l, true, i) + [Dealloc(a, Malloc)] + FreeSeq(s)
  {
    var l' := l.(keys := l.keys[i := Key(a, k)], values := l.values[i := s]);
    ItemsFreeSeqPrefix(l, l', true, i);
    assert KeyFree(l', i) == [Dealloc(a, Malloc)];
  }

  /** The releases of the first `k` elements come first among those of the first `n`. */
  lemma {:induction false} ItemsFreeSeqGrow(l: NodeList, isMap: bool, k: nat, n: nat)
    requires k <= n <= |l.values|
    ensures ItemsFreeSeq(l, isMap, k) <= ItemsFreeSeq(l, isMap, n)
    decreases n
  {
    if k < n {
      ItemsFreeSeqGrow(l, isMap, k, n - 1);
    }
  }

  /** Elements left NONE (and, in a map, null keys) add no releases. */
  lemma {:induction false} ItemsFreeSeqIdle(l: NodeList, isMap: bool, i: nat, n: nat)
    requires i <= n <= |l.values| && (isMap ==> n <= |l.keys|)
    requires forall j :: i <= j < n ==> l.values[j] == Init(NNone) && (isMap ==> l.keys[j] == KeyNull)
    ensures ItemsFreeSeq(l, isMap, n) == ItemsFreeSeq(l, isMap, i)
    decreases n
  {
    if i < n {
      ItemsFreeSeqIdle(l, isMap, i, n - 1);
      assert FreeSeq(l.values[n - 1]) == [];
      assert isMap ==> KeyFree(l, n - 1) == [];
      assert ItemsFreeSeq(l, isMap, n) == ItemsFreeSeq(l, isMap, n - 1) + [] + [];
    }
  }

  /** The releases of the first `i` elements depend on those elements only. */
  lemma {:induction false} ItemsFreeSeqPrefix(l: NodeList, l': NodeList, isMap: bool, i: nat)
    requires i <= |l.values| && i <= |l'.values|
    requires l.values[..i] == l'.values[..i]
    requires isMap ==> i <= |l.keys| && i <= |l'.keys| && l.keys[..i] == l'.keys[..i]
    ensures ItemsFreeSeq(l, isMap, i) == ItemsFreeSeq(l', isMap, i)
  {
    if i > 0 {
      assert l.values[i - 1] == l.values[..i][i - 1];
      assert l'.values[i - 1] == l'.values[..i][i - 1];
      if isMap {
        assert l.keys[i - 1] == l.keys[..i][i - 1];
        assert l'.keys[i - 1] == l'.keys[..i][i - 1];
      }
      assert l.values[..i - 1] == l.values[..i][..i - 1];
      assert l'.values[..i - 1] == l'.values[..i][..i - 1];
      if isMap {
        assert l.keys[..i - 1] == l.keys[..i][..i - 1];
        assert l'.keys[..i - 1] == l'.keys[..i][..i - 1];
      }
      ItemsFreeSeqPrefix(l, l', isMap, i - 1);
    }
  }
}
