/** The functional engine computes exactly what the source's aliasing
    program computes: every container the program links into a parent slot
    by reference ends up, in the functional model, written into that slot
    when its frame is popped. */
module Equivalence {
  import opened Results
  import opened Nodes
  import opened Errors
  import opened Scanner
  import opened Engine
  import opened Aliasing

  /** A reference in slot `s` of object `a` points after `a` and below `hi`. */
  predicate SlotWithin(s: Slot, a: nat, hi: nat) {
    s.Ref? ==> a < s.addr < hi
  }

  predicate RefsWithin(o: Obj, a: nat, hi: nat) {
    forall j :: 0 <= j < ObjLen(o) ==> SlotWithin(SlotAt(o, j), a, hi)
  }

  /** Objects `lo..hi-1` only refer forward, and never beyond `hi`. */
  predicate Closed(h: seq<Obj>, lo: nat, hi: nat) {
    hi <= |h| && forall x :: lo <= x < hi ==> RefsWithin(h[x], x, hi)
  }

  /** Two heaps hold the same objects at `lo..hi-1`. */
  predicate Agree(h: seq<Obj>, h': seq<Obj>, lo: nat, hi: nat) {
    hi <= |h| && hi <= |h'| && forall x :: lo <= x < hi ==> h[x] == h'[x]
  }

  /** A closed region reads as the same tree in any heap that agrees on it. */
  lemma {:induction false} ResolveFraming(h: seq<Obj>, h': seq<Obj>, a: nat, hi: nat)
    requires a < hi && Closed(h, a, hi) && Agree(h, h', a, hi)
    ensures Resolve(h', a) == Resolve(h, a)
    decreases hi - a
  {
    forall y | a < y < hi
      ensures Resolve(h', y) == Resolve(h, y)
    {
      ResolveFraming(h, h', y, hi);
    }
    forall s: Slot | SlotWithin(s, a, hi)
      ensures ResolveSlot(h', a, s) == ResolveSlot(h, a, s)
    {
    }
    assert h'[a] == h[a];
    assert RefsWithin(h[a], a, hi);
    match h[a]
    case ListObj(xs) =>
      var l, l' := ResolveSlots(h, a, xs), ResolveSlots(h', a, xs);
      assert forall j :: 0 <= j < |xs| ==> l'[j] == l[j] by {
        forall j | 0 <= j < |xs| ensures l'[j] == l[j] {
          assert SlotWithin(SlotAt(h[a], j), a, hi);
        }
      }
      assert l' == l;
    case DictObj(ps) =>
      var l, l' := ResolvePairs(h, a, ps), ResolvePairs(h', a, ps);
      assert forall j :: 0 <= j < |ps| ==> l'[j] == l[j] by {
        forall j | 0 <= j < |ps| ensures l'[j] == l[j] {
          assert SlotWithin(SlotAt(h[a], j), a, hi);
        }
      }
      assert l' == l;
  }

  lemma ClosedFraming(h: seq<Obj>, h': seq<Obj>, lo: nat, hi: nat)
    requires Closed(h, lo, hi) && Agree(h, h', lo, hi)
    ensures Closed(h', lo, hi)
  {
    assert forall x :: lo <= x < hi ==> h'[x] == h[x];
  }

  /** Gluing the region of a child object onto the region before it. */
  lemma ClosedJoin(h: seq<Obj>, lo: nat, c: nat, hi: nat)
    requires lo <= c < hi && Closed(h, lo, c) && Closed(h, c + 1, hi) && RefsWithin(h[c], c, hi)
    ensures Closed(h, lo, hi)
  {
    forall x | lo <= x < c
      ensures RefsWithin(h[x], x, hi)
    {
      assert RefsWithin(h[x], x, c);
    }
  }

  /** A functional container and a heap object hold entries of the same
      kind, number and keys. */
  predicate ShapeMatch(b: Body, o: Obj) {
    && b.Items? == o.ListObj?
    && Size(b) == ObjLen(o)
    && (b.Entries? ==> forall j :: 0 <= j < |b.entries| ==> b.entries[j].0 == o.pairs[j].0)
  }

  /** Slot `j` of the frame's container and of its heap object agree: the
      last slot of a frame with an open child is the placeholder on one side
      and the reference to the child's object on the other; every other
      slot is a string or a reference into the frame's region that reads as
      the functional value. */
  predicate SlotCorr(h: seq<Obj>, b: Body, a: nat, bound: nat, open: bool, j: nat)
    requires a < |h| && j < Size(b) && Size(b) == ObjLen(h[a])
  {
    var s := SlotAt(h[a], j);
    if open && j == Size(b) - 1 then s == Ref(bound) && ValueAt(b, j) == Scalar("")
    else SlotWithin(s, a, bound) && ValueAt(b, j) == ResolveSlot(h, a, s)
  }

  /** Functional frame `f` corresponds to interpreter frame `p`, whose
      objects (the container and its closed descendants) occupy `p.data` up
      to `bound`. */
  predicate FrameCorr(h: seq<Obj>, f: Frame, p: PyFrame, bound: nat, open: bool) {
    && f.indent == p.indent
    && BodyKind(f.body) == p.kind
    && p.data < bound <= |h|
    && ShapeMatch(f.body, h[p.data])
    && Closed(h, p.data + 1, bound)
    && forall j :: 0 <= j < Size(f.body) ==> SlotCorr(h, f.body, p.data, bound, open, j)
  }

  /** Where the region of frame `i` ends: at the next frame's object, or at the heap's end. */
  function Bound(st: PyState, i: nat): nat {
    if i + 1 < |st.stack| then st.stack[i + 1].data else |st.heap|
  }

  /** The functional stack and the interpreter state describe the same parse.
      (The trigger is on `fs[i]` alone: `Bound(st, i)` mentions
      `st.stack[i + 1]`, which would otherwise feed the quantifier forever.) */
  predicate Corr(fs: seq<Frame>, st: PyState) {
    && |fs| == |st.stack|
    && forall i {:trigger fs[i]} :: 0 <= i < |fs| ==>
         FrameCorr(st.heap, fs[i], st.stack[i], Bound(st, i), i + 1 < |fs|)
  }

  /** Between two lines: the top object's last slot holds a string and, for
      a dict, `prev_key` is the key of that slot. */
  predicate Ready(fs: seq<Frame>, st: PyState) {
    && Corr(fs, st)
    && (|st.stack| > 0 ==>
          var p := st.stack[|st.stack| - 1];
          && p.data < |st.heap|
          && var o := st.heap[p.data];
             && ObjLen(o) > 0
             && SlotAt(o, ObjLen(o) - 1).Str?
             && (o.DictObj? ==> st.prevKey == Some(o.pairs[|o.pairs| - 1].0)))
  }

  lemma FrameCorrFraming(h: seq<Obj>, h': seq<Obj>, f: Frame, p: PyFrame, bound: nat, open: bool)
    requires FrameCorr(h, f, p, bound, open) && Agree(h, h', p.data, bound)
    ensures FrameCorr(h', f, p, bound, open)
  {
    ClosedFraming(h, h', p.data + 1, bound);
    forall j | 0 <= j < Size(f.body)
      ensures SlotCorr(h', f.body, p.data, bound, open, j)
    {
      assert SlotCorr(h, f.body, p.data, bound, open, j);
      var s := SlotAt(h[p.data], j);
      if s.Ref? && p.data < s.addr < bound {
        ResolveFraming(h, h', s.addr, bound);
      }
    }
  }

  /** Frame regions are ordered: every region below frame `j` ends at or before `j`'s object. */
  lemma {:induction false} BoundBelow(fs: seq<Frame>, st: PyState, i: nat, j: nat)
    requires Corr(fs, st) && i < j < |fs|
    ensures Bound(st, i) <= st.stack[j].data
    decreases j - i
  {
    if i + 1 < j {
      BoundBelow(fs, st, i + 1, j);
      assert FrameCorr(st.heap, fs[i + 1], st.stack[i + 1], Bound(st, i + 1), i + 2 < |fs|);
    }
  }

  /** Frames below the top keep corresponding when only objects from the
      top's object onward change. */
  lemma LowerFramesKeep(fs: seq<Frame>, st: PyState, st': PyState)
    requires Corr(fs, st) && |fs| > 0
    requires |st'.stack| >= |fs| && st'.stack[..|fs|] == st.stack
    requires Agree(st.heap, st'.heap, 0, st.stack[|fs| - 1].data)
    ensures forall i :: 0 <= i < |fs| - 1 ==>
              FrameCorr(st'.heap, fs[i], st'.stack[i], Bound(st', i), true)
  {
    forall i | 0 <= i < |fs| - 1
      ensures FrameCorr(st'.heap, fs[i], st'.stack[i], Bound(st', i), true)
    {
      assert st'.stack[i] == st.stack[i] && st'.stack[i + 1] == st.stack[i + 1];
      BoundBelow(fs, st, i, |fs| - 1);
      FrameCorrFraming(st.heap, st'.heap, fs[i], st.stack[i], Bound(st, i), true);
    }
  }

  /** A frame with no open child reads, through the heap, as its own container. */
  lemma TopResolves(h: seq<Obj>, f: Frame, p: PyFrame, bound: nat)
    requires FrameCorr(h, f, p, bound, false)
    ensures Resolve(h, p.data) == ToNode(f.body)
  {
    assert forall j :: 0 <= j < Size(f.body) ==> SlotCorr(h, f.body, p.data, bound, false, j);
    match f.body
    case Items(xs) =>
      var l := ResolveSlots(h, p.data, h[p.data].slots);
      assert forall j :: 0 <= j < |xs| ==> l[j] == xs[j] by {
        forall j | 0 <= j < |xs| ensures l[j] == xs[j] {
          assert SlotCorr(h, f.body, p.data, bound, false, j);
        }
      }
      assert l == xs;
    case Entries(es) =>
      var l := ResolvePairs(h, p.data, h[p.data].pairs);
      assert forall j :: 0 <= j < |es| ==> l[j] == es[j] by {
        forall j | 0 <= j < |es| ensures l[j] == es[j] {
          assert SlotCorr(h, f.body, p.data, bound, false, j);
        }
      }
      assert l == es;
  }

  /** Popping a frame on both sides keeps the correspondence: the child the
      program reaches by reference is the container the functional model
      writes into the parent's last slot. */
  lemma PopCorr(fs: seq<Frame>, st: PyState)
    requires Corr(fs, st) && ValidStack(fs) && |fs| >= 2
    ensures Corr(PopInto(fs), st.(stack := st.stack[..|st.stack| - 1]))
  {
    var k := |fs|;
    var up := PopInto(fs);
    var st' := st.(stack := st.stack[..k - 1]);
    var h := st.heap;
    forall i | 0 <= i < k - 2
      ensures FrameCorr(h, up[i], st'.stack[i], Bound(st', i), i + 1 < k - 1)
    {
      assert up[i] == up[..k - 2][i] == fs[i];
    }
    var p := st.stack[k - 2];
    var c := st.stack[k - 1];
    var a := p.data;
    assert FrameCorr(h, fs[k - 2], p, c.data, true);
    assert FrameCorr(h, fs[k - 1], c, |h|, false);
    TopResolves(h, fs[k - 1], c, |h|);
    assert RefsWithin(h[c.data], c.data, |h|) by {
      forall j | 0 <= j < ObjLen(h[c.data])
        ensures SlotWithin(SlotAt(h[c.data], j), c.data, |h|)
      {
        assert SlotCorr(h, fs[k - 1].body, c.data, |h|, false, j);
      }
    }
    ClosedJoin(h, a + 1, c.data, |h|);
    var b := fs[k - 2].body;
    var b' := up[k - 2].body;
    forall j | 0 <= j < Size(b')
      ensures SlotCorr(h, b', a, |h|, false, j)
    {
      assert SlotCorr(h, b, a, c.data, true, j);
    }
    assert FrameCorr(h, up[k - 2], st'.stack[k - 2], Bound(st', k - 2), false);
  }

  /** Unwinding fails on both sides with the same error, or succeeds on both
      with corresponding stacks. */
  lemma {:induction false} UnwindCorr(fs: seq<Frame>, st: PyState, indent: nat)
    requires Corr(fs, st) && ValidStack(fs) && |fs| >= 1
    ensures Unwind(fs, indent).Err? ==> PyUnwind(st.stack, indent) == Err(Raised(InvalidIndentation))
    ensures Unwind(fs, indent).Ok? ==>
              && PyUnwind(st.stack, indent).Ok?
              && Corr(Unwind(fs, indent).value, st.(stack := PyUnwind(st.stack, indent).value))
    decreases |fs|
  {
    if |fs| > 1 {
      var up := PopInto(fs);
      var st' := st.(stack := st.stack[..|fs| - 1]);
      PopCorr(fs, st);
      assert FrameCorr(st'.heap, up[|up| - 1], st'.stack[|up| - 1], Bound(st', |up| - 1), false);
      if up[|up| - 1].indent != indent {
        UnwindCorr(up, st', indent);
      }
    }
  }

  /** At the end of input, folding the open frames gives what the program
      reads through the bottom frame's object. */
  lemma {:induction false} CloseAllCorr(fs: seq<Frame>, st: PyState)
    requires Corr(fs, st) && ValidStack(fs) && |fs| >= 1
    ensures CloseAll(fs) == Resolve(st.heap, st.stack[0].data)
    decreases |fs|
  {
    if |fs| == 1 {
      TopResolves(st.heap, fs[0], st.stack[0], Bound(st, 0));
    } else {
      PopCorr(fs, st);
      CloseAllCorr(PopInto(fs), st.(stack := st.stack[..|fs| - 1]));
    }
  }

  /** The object of the top frame. */
  function TopAddr(st: PyState): nat
    requires |st.stack| > 0
  {
    st.stack[|st.stack| - 1].data
  }

  /** Appending one string slot to the top object, and the matching scalar
      to the top container, keeps the correspondence. */
  lemma TopAppendCorr(fs: seq<Frame>, st: PyState, st': PyState, b': Body, o': Obj, v: string)
    requires Corr(fs, st) && |fs| > 0
    requires TopAddr(st) < |st.heap|
    requires st'.stack == st.stack && st'.heap == st.heap[TopAddr(st) := o']
    requires ShapeMatch(b', o') && BodyKind(b') == BodyKind(fs[|fs| - 1].body)
    requires Size(b') == Size(fs[|fs| - 1].body) + 1
    requires forall j :: 0 <= j < Size(fs[|fs| - 1].body) ==>
               && ValueAt(b', j) == ValueAt(fs[|fs| - 1].body, j)
               && SlotAt(o', j) == SlotAt(st.heap[TopAddr(st)], j)
    requires SlotAt(o', Size(fs[|fs| - 1].body)) == Str(v)
    requires ValueAt(b', Size(fs[|fs| - 1].body)) == Scalar(v)
    ensures Corr(fs[..|fs| - 1] + [Frame(fs[|fs| - 1].indent, b')], st')
  {
    var k := |fs|;
    var h, h' := st.heap, st'.heap;
    var a := TopAddr(st);
    var top := fs[k - 1];
    var fs' := fs[..k - 1] + [Frame(top.indent, b')];
    assert Agree(h, h', 0, a);
    LowerFramesKeep(fs, st, st');
    forall i | 0 <= i < k - 1
      ensures FrameCorr(h', fs'[i], st'.stack[i], Bound(st', i), true)
    {
      assert fs'[i] == fs[i];
    }
    assert FrameCorr(h, top, st.stack[k - 1], |h|, false);
    assert Agree(h, h', a + 1, |h|);
    ClosedFraming(h, h', a + 1, |h|);
    forall j | 0 <= j < Size(b')
      ensures SlotCorr(h', b', a, |h'|, false, j)
    {
      if j < Size(top.body) {
        assert SlotCorr(h, top.body, a, |h|, false, j);
        var s := SlotAt(h[a], j);
        if s.Ref? {
          ResolveFraming(h, h', s.addr, |h|);
        }
      }
    }
    assert FrameCorr(h', fs'[k - 1], st'.stack[k - 1], Bound(st', k - 1), false);
  }

  /** The keys of corresponding dicts agree, so key lookups agree. */
  lemma KeyLookupCorr(es: seq<(string, Node)>, ps: seq<(string, Slot)>, k: string)
    requires |es| == |ps| && forall j :: 0 <= j < |es| ==> es[j].0 == ps[j].0
    ensures HasKey(es, k) <==> FindKey(ps, k).Some?
  {
    if HasKey(es, k) {
      var i :| 0 <= i < |es| && es[i].0 == k;
      assert ps[i].0 == k;
    }
  }

  /** Adding an entry at the top's level: the same verdict on both sides. */
  lemma AddCorr(fs: seq<Frame>, st: PyState, e: Entry)
    requires Corr(fs, st) && ValidStack(fs) && |fs| > 0
    ensures AddAtLevel(fs, e).Err? ==> PyAdd(st, e) == Err(Raised(AddAtLevel(fs, e).error))
    ensures AddAtLevel(fs, e).Ok? ==> PyAdd(st, e).Ok? && Ready(AddAtLevel(fs, e).value, PyAdd(st, e).value)
  {
    assert FrameCorr(st.heap, fs[|fs| - 1], st.stack[|fs| - 1], |st.heap|, false);
    if BodyKind(fs[|fs| - 1].body) == EntryKind(e) {
      match e
      case Item(v) => AddItemCorr(fs, st, v);
      case Pair(key, v) => AddPairCorr(fs, st, key, v);
    } else {
      assert PyAdd(st, e) == Err(Raised(InvalidEntryType));
    }
  }

  lemma AddItemCorr(fs: seq<Frame>, st: PyState, v: string)
    requires Corr(fs, st) && ValidStack(fs) && |fs| > 0 && fs[|fs| - 1].body.Items?
    ensures AddAtLevel(fs, Item(v)).Ok? && PyAdd(st, Item(v)).Ok?
    ensures Ready(AddAtLevel(fs, Item(v)).value, PyAdd(st, Item(v)).value)
  {
    var k := |fs|;
    var h := st.heap;
    var a := TopAddr(st);
    var top := fs[k - 1];
    assert FrameCorr(h, top, st.stack[k - 1], |h|, false);
    var o := h[a];
    var o' := ListObj(o.slots + [Str(v)]);
    var b' := Items(top.body.items + [Scalar(v)]);
    var st' := PyState(h[a := o'], st.stack, None);
    assert PyAdd(st, Item(v)) == Ok(st');
    TopAppendCorr(fs, st, st', b', o', v);
  }

  lemma AddPairCorr(fs: seq<Frame>, st: PyState, key: string, v: string)
    requires Corr(fs, st) && ValidStack(fs) && |fs| > 0 && fs[|fs| - 1].body.Entries?
    ensures AddAtLevel(fs, Pair(key, v)).Err? ==> PyAdd(st, Pair(key, v)) == Err(Raised(AddAtLevel(fs, Pair(key, v)).error))
    ensures AddAtLevel(fs, Pair(key, v)).Ok? ==>
              PyAdd(st, Pair(key, v)).Ok? && Ready(AddAtLevel(fs, Pair(key, v)).value, PyAdd(st, Pair(key, v)).value)
  {
    var k := |fs|;
    var h := st.heap;
    var a := TopAddr(st);
    var top := fs[k - 1];
    assert FrameCorr(h, top, st.stack[k - 1], |h|, false);
    var o := h[a];
    var es := top.body.entries;
    KeyLookupCorr(es, o.pairs, key);
    if !HasKey(es, key) {
      var o' := DictObj(o.pairs + [(key, Str(v))]);
      var b' := Entries(es + [(key, Scalar(v))]);
      var st' := PyState(h[a := o'], st.stack, Some(key));
      assert DictSet(o.pairs, key, Str(v)) == o'.pairs;
      assert PyAdd(st, Pair(key, v)) == Ok(st');
      TopAppendCorr(fs, st, st', b', o', v);
    } else {
      assert PyAdd(st, Pair(key, v)) == Err(Raised(DuplicateKey));
    }
  }

  /** With unique keys, the last key is found at the last position. */
  lemma LastKeyFound(es: seq<(string, Node)>, ps: seq<(string, Slot)>)
    requires |es| == |ps| > 0 && UniqueKeys(es)
    requires forall j :: 0 <= j < |es| ==> es[j].0 == ps[j].0
    ensures FindKey(ps, ps[|ps| - 1].0) == Some(|ps| - 1)
  {
  }

  /** The object `o` with its last slot replaced by a reference to `n`. */
  function LinkLast(o: Obj, n: nat): (o': Obj)
    requires ObjLen(o) > 0
    ensures SameButSlot(o, o', ObjLen(o) - 1) && SlotAt(o', ObjLen(o) - 1) == Ref(n)
  {
    match o
    case ListObj(xs) => ListObj(xs[|xs| - 1 := Ref(n)])
    case DictObj(ps) => DictObj(ps[|ps| - 1 := (ps[|ps| - 1].0, Ref(n))])
  }

  /** The link step of a deeper line (lines 284-303): both sides reject a
      non-empty previous slot alike; otherwise the program stores the
      reference to the new object in exactly that slot. */
  lemma LinkCorr(fs: seq<Frame>, st: PyState, n: nat, empty: Obj)
    requires Ready(fs, st) && ValidStack(fs) && |fs| > 0 && n == |st.heap|
    ensures var top := fs[|fs| - 1];
            var link := Link(st.heap + [empty], st.stack[|fs| - 1], st.prevKey, n);
            var o := st.heap[TopAddr(st)];
            && (LastValue(top.body) != Scalar("") ==>
                  link == Err(Raised(if top.body.Items? then SequenceLineHasData else MappingLineHasData)))
            && (LastValue(top.body) == Scalar("") ==>
                  && ObjLen(o) > 0
                  && link == Ok((st.heap + [empty])[TopAddr(st) := LinkLast(o, n)]))
  {
    var k := |fs|;
    var h := st.heap;
    var a := TopAddr(st);
    var top := fs[k - 1];
    var o := h[a];
    var h1 := h + [empty];
    assert h1[a] == o;
    assert FrameCorr(h, top, st.stack[k - 1], |h|, false);
    var last := Size(top.body) - 1;
    assert SlotCorr(h, top.body, a, |h|, false, last);
    var s := SlotAt(o, last);
    assert LastValue(top.body) == Scalar(s.s);
    assert SlotTruthy(h1, s) <==> LastValue(top.body) != Scalar("");
    match o
    case ListObj(xs) =>
      if LastValue(top.body) == Scalar("") {
        assert Link(h1, st.stack[k - 1], st.prevKey, n) == Ok(h1[a := LinkLast(o, n)]);
      }
    case DictObj(ps) =>
      LastKeyFound(top.body.entries, ps);
      if LastValue(top.body) == Scalar("") {
        assert Link(h1, st.stack[k - 1], st.prevKey, n) == Ok(h1[a := LinkLast(o, n)]);
      }
  }

  /** A new frame whose object was just allocated at the heap's end corresponds. */
  lemma NewTopCorr(h: seq<Obj>, indent: nat, e: Entry)
    requires |h| > 0 && h[|h| - 1] == StartObj(e)
    ensures FrameCorr(h, Frame(indent, Start(e)), PyFrame(EntryKind(e), indent, |h| - 1), |h|, false)
  {
    assert SlotCorr(h, Start(e), |h| - 1, |h|, false, 0);
  }

  /** The interpreter state after a successful deeper line. */
  function NestedState(st: PyState, indent: nat, e: Entry): PyState
    requires |st.stack| > 0 && TopAddr(st) < |st.heap| && ObjLen(st.heap[TopAddr(st)]) > 0
  {
    var n := |st.heap|;
    var h2 := (st.heap + [StartObj(e)])[TopAddr(st) := LinkLast(st.heap[TopAddr(st)], n)];
    PyState(h2, st.stack + [PyFrame(EntryKind(e), indent, n)], if e.Pair? then Some(e.key) else None)
  }

  lemma NestPyStep(fs: seq<Frame>, st: PyState, indent: nat, e: Entry)
    requires Ready(fs, st) && ValidStack(fs) && |fs| > 0 && indent > fs[|fs| - 1].indent
    ensures LastValue(fs[|fs| - 1].body) != Scalar("") ==>
              PyStep(st, indent, e) == Err(Raised(Nest(fs, indent, e).error))
    ensures LastValue(fs[|fs| - 1].body) == Scalar("") ==>
              ObjLen(st.heap[TopAddr(st)]) > 0 && PyStep(st, indent, e) == Ok(NestedState(st, indent, e))
  {
    var k := |fs|;
    var h := st.heap;
    var n := |h|;
    var a := TopAddr(st);
    var top := fs[k - 1];
    assert FrameCorr(h, top, st.stack[k - 1], |h|, false);
    assert st.stack[k - 1].indent == top.indent;
    var empty := if e.Pair? then DictObj([]) else ListObj([]);
    LinkCorr(fs, st, n, empty);
    if LastValue(top.body) == Scalar("") {
      var h2 := (h + [empty])[a := LinkLast(h[a], n)];
      var stack2 := st.stack + [PyFrame(EntryKind(e), indent, n)];
      assert h2[n] == empty && |h2| == n + 1;
      assert [] + [Str(e.value)] == [Str(e.value)];
      assert e.Pair? ==> DictSet([], e.key, Str(e.value)) == [(e.key, Str(e.value))];
      assert (h + [StartObj(e)])[a := LinkLast(h[a], n)] == h2[n := StartObj(e)];
      assert PyAdd(PyState(h2, stack2, st.prevKey), e) == Ok(NestedState(st, indent, e));
    }
  }

  lemma NestStateCorr(fs: seq<Frame>, st: PyState, indent: nat, e: Entry)
    requires Ready(fs, st) && ValidStack(fs) && |fs| > 0 && indent > fs[|fs| - 1].indent
    requires LastValue(fs[|fs| - 1].body) == Scalar("") && ObjLen(st.heap[TopAddr(st)]) > 0
    ensures Ready(fs + [Frame(indent, Start(e))], NestedState(st, indent, e))
  {
    var k := |fs|;
    var h := st.heap;
    var n := |h|;
    var a := TopAddr(st);
    var top := fs[k - 1];
    assert FrameCorr(h, top, st.stack[k - 1], |h|, false);
    var st3 := NestedState(st, indent, e);
    var h3 := st3.heap;
    var stack2 := st3.stack;
    var fs3 := fs + [Frame(indent, Start(e))];
    assert Agree(h, h3, 0, a);
    assert stack2[..k] == st.stack;
    LowerFramesKeep(fs, st, st3);
    forall i | 0 <= i < k - 1
      ensures FrameCorr(h3, fs3[i], stack2[i], Bound(st3, i), true)
    {
      assert fs3[i] == fs[i];
    }
    assert Agree(h, h3, a + 1, n);
    ClosedFraming(h, h3, a + 1, n);
    forall j | 0 <= j < Size(top.body)
      ensures SlotCorr(h3, top.body, a, n, true, j)
    {
      if j < Size(top.body) - 1 {
        assert SlotCorr(h, top.body, a, n, false, j);
        var s := SlotAt(h[a], j);
        if s.Ref? {
          ResolveFraming(h, h3, s.addr, n);
        }
      }
    }
    assert FrameCorr(h3, fs3[k - 1], stack2[k - 1], Bound(st3, k - 1), true);
    NewTopCorr(h3, indent, e);
    assert FrameCorr(h3, fs3[k], stack2[k], Bound(st3, k), false);
  }

  /** A deeper line: the same verdict on both sides, and on success the
      functional push corresponds to the program's allocation, link and add. */
  lemma NestCorr(fs: seq<Frame>, st: PyState, indent: nat, e: Entry)
    requires Ready(fs, st) && ValidStack(fs) && |fs| > 0 && indent > fs[|fs| - 1].indent
    ensures Nest(fs, indent, e).Err? ==> PyStep(st, indent, e) == Err(Raised(Nest(fs, indent, e).error))
    ensures Nest(fs, indent, e).Ok? ==>
              PyStep(st, indent, e).Ok? && Ready(Nest(fs, indent, e).value, PyStep(st, indent, e).value)
  {
    NestPyStep(fs, st, indent, e);
    if LastValue(fs[|fs| - 1].body) == Scalar("") {
      NestStateCorr(fs, st, indent, e);
    }
  }

  /** The engine's verdict on one entry and the program's agree: the same
      error, or success on both sides with corresponding states. */
  predicate StepAgrees(r: Result<seq<Frame>, Reason>, pr: Result<PyState, PyFailure>) {
    && (r.Err? ==> pr == Err(Raised(r.error)))
    && (r.Ok? ==> pr.Ok? && Ready(r.value, pr.value))
  }

  /** One entry: the same verdict on both sides, and corresponding states after success. */
  lemma StepCorr(fs: seq<Frame>, st: PyState, indent: nat, e: Entry)
    requires Ready(fs, st) && ValidStack(fs)
    ensures StepAgrees(Step(fs, indent, e), PyStep(st, indent, e))
  {
    if |fs| == 0 {
      StepFirstCorr(fs, st, indent, e);
    } else {
      var top := fs[|fs| - 1];
      assert FrameCorr(st.heap, top, st.stack[|fs| - 1], Bound(st, |fs| - 1), false);
      assert st.stack[|st.stack| - 1].indent == top.indent;
      if indent > top.indent {
        NestCorr(fs, st, indent, e);
      } else if indent == top.indent {
        StepLevelCorr(fs, st, indent, e);
      } else {
        StepShallowerCorr(fs, st, indent, e);
      }
    }
  }

  lemma StepFirstCorr(fs: seq<Frame>, st: PyState, indent: nat, e: Entry)
    requires Ready(fs, st) && ValidStack(fs) && |fs| == 0
    ensures StepAgrees(Step(fs, indent, e), PyStep(st, indent, e))
  {
    var h' := st.heap + [StartObj(e)];
    assert PyStep(st, indent, e).value.heap == h';
    NewTopCorr(h', indent, e);
  }

  lemma StepLevelCorr(fs: seq<Frame>, st: PyState, indent: nat, e: Entry)
    requires Ready(fs, st) && ValidStack(fs) && |fs| > 0
    requires indent == fs[|fs| - 1].indent == st.stack[|st.stack| - 1].indent
    ensures StepAgrees(Step(fs, indent, e), PyStep(st, indent, e))
  {
    AddCorr(fs, st, e);
  }

  lemma StepShallowerCorr(fs: seq<Frame>, st: PyState, indent: nat, e: Entry)
    requires Ready(fs, st) && ValidStack(fs) && |fs| > 0
    requires indent < fs[|fs| - 1].indent == st.stack[|st.stack| - 1].indent
    ensures StepAgrees(Step(fs, indent, e), PyStep(st, indent, e))
  {
    UnwindCorr(fs, st, indent);
    if Unwind(fs, indent).Ok? {
      AddCorr(Unwind(fs, indent).value, st.(stack := PyUnwind(st.stack, indent).value), e);
    }
  }

  /** The functional result and the program's result of the same run agree. */
  predicate Agrees(r: Result<seq<Frame>, Error>, pr: Result<PyState, PyError>) {
    match r
    case Err(err) => pr == Err(Failed(err))
    case Ok(fs) => pr.Ok? && ValidStack(fs) && Ready(fs, pr.value)
  }

  /** One raw line: the same verdict on both sides, and corresponding states after success. */
  lemma FeedCorr(fs: seq<Frame>, st: PyState, lx: Result<Lexed, Error>, lineNo: nat)
    requires Ready(fs, st) && ValidStack(fs)
    ensures Agrees(Feed(fs, lx, lineNo), PyFeed(st, lx, lineNo))
  {
    match lx
    case Err(_) =>
    case Ok(Blank) =>
    case Ok(Content(indent, e)) =>
      StepCorr(fs, st, indent, e);
  }
}
