/** A reference model of the parser as the source writes it: lists and
    dicts are objects on a heap, a nested container is linked into its
    parent's slot by reference as soon as it is created, and later appends
    to it are seen through that reference. */
module Aliasing {
  import opened Results
  import opened Nodes
  import opened Errors
  import opened Scanner

  /** A list element or dict value: a string, or a reference to a heap object. */
  datatype Slot = Str(s: string) | Ref(addr: nat)

  /** A Python list or dict; dict pairs are in insertion order. */
  datatype Obj = ListObj(slots: seq<Slot>) | DictObj(pairs: seq<(string, Slot)>)

  /** `_StackFrame`: entry type, indent and the address of its container. */
  datatype PyFrame = PyFrame(kind: Kind, indent: nat, data: nat)

  /** The interpreter state of the parsing loop: heap, `stack`, `prev_key`. */
  datatype PyState = PyState(heap: seq<Obj>, stack: seq<PyFrame>, prevKey: Option<string>)

  /** A failure inside one step: a `_parse_error`, or a Python `KeyError`,
      `IndexError` or type error on a container (which the parser never
      actually reaches). */
  datatype PyFailure = Raised(reason: Reason) | LookupError

  /** A failure of the whole parse. */
  datatype PyError = Failed(error: Error) | LookupFailed

  function ObjLen(o: Obj): nat {
    match o
    case ListObj(xs) => |xs|
    case DictObj(ps) => |ps|
  }

  function SlotAt(o: Obj, j: nat): Slot
    requires j < ObjLen(o)
  {
    match o
    case ListObj(xs) => xs[j]
    case DictObj(ps) => ps[j].1
  }

  /** Python truthiness of a slot (`if prev.data[-1]:`). */
  predicate SlotTruthy(h: seq<Obj>, s: Slot) {
    match s
    case Str(t) => t != ""
    case Ref(a) => a < |h| && ObjLen(h[a]) > 0
  }

  /** The position of key `k` in a dict, if present. */
  function FindKey(ps: seq<(string, Slot)>, k: string): (r: Option<nat>)
    ensures r.Some? ==> r.value < |ps| && ps[r.value].0 == k
    ensures r.Some? ==> forall j :: 0 <= j < r.value ==> ps[j].0 != k
    ensures r.None? <==> forall j :: 0 <= j < |ps| ==> ps[j].0 != k
  {
    if |ps| == 0 then None
    else if ps[0].0 == k then Some(0)
    else
      match FindKey(ps[1..], k)
      case None => None
      case Some(i) => Some(i + 1)
  }

  /** `d[k] = v`: overwrite in place when `k` is present, otherwise append.
      Afterwards `k` finds `v`; every other pair, and the order of the keys,
      stays as it was. */
  function DictSet(ps: seq<(string, Slot)>, k: string, v: Slot): (r: seq<(string, Slot)>)
    ensures FindKey(ps, k).Some? ==> |r| == |ps|
    ensures FindKey(ps, k).None? ==> |r| == |ps| + 1 && r[|ps|] == (k, v)
    ensures forall j :: 0 <= j < |ps| ==> r[j].0 == ps[j].0
    ensures forall j :: 0 <= j < |ps| && ps[j].0 != k ==> r[j] == ps[j]
    ensures FindKey(r, k).Some? && r[FindKey(r, k).value].1 == v
  {
    match FindKey(ps, k)
    case Some(i) => ps[i := (k, v)]
    case None => ps + [(k, v)]
  }

  /** The slot lines 290-303 address in `prev`'s container: its last item
      (`prev.data[-1]`) for a list, the pair of `prev_key` for a dict; `None`
      where Python would raise an `IndexError` or `KeyError`. */
  function LinkTarget(h: seq<Obj>, prev: PyFrame, prevKey: Option<string>): (r: Option<nat>)
    ensures r.Some? ==> prev.data < |h| && r.value < ObjLen(h[prev.data])
  {
    if prev.data >= |h| then None
    else
      match (prev.kind, h[prev.data])
      case (SeqKind, ListObj(xs)) => if |xs| == 0 then None else Some(|xs| - 1)
      case (MapKind, DictObj(ps)) => if prevKey.None? then None else FindKey(ps, prevKey.value)
      case _ => None
  }

  /** `h'` is `h` with exactly slot `j` of object `a` now referring to `n`,
      and that slot was falsy before. */
  predicate LinkedAt(h: seq<Obj>, h': seq<Obj>, a: nat, j: nat, n: nat) {
    && a < |h| && |h'| == |h| && j < ObjLen(h[a])
    && (forall x :: 0 <= x < |h| && x != a ==> h'[x] == h[x])
    && SameButSlot(h[a], h'[a], j) && SlotAt(h'[a], j) == Ref(n)
    && !SlotTruthy(h, SlotAt(h[a], j))
  }

  /** Lines 290-303: checks that the previous entry's slot in `prev` (the
      last list item, or the value of `prev_key`) is falsy and stores the
      reference to the new object `n` there; a truthy slot is the has-data
      error of `prev`'s type. Only that one slot of `prev`'s container
      changes. */
  function Link(h: seq<Obj>, prev: PyFrame, prevKey: Option<string>, n: nat): (r: Result<seq<Obj>, PyFailure>)
    ensures prev.kind == SeqKind && prev.data < |h| && h[prev.data].ListObj? && ObjLen(h[prev.data]) > 0 ==>
              LinkTarget(h, prev, prevKey) == Some(ObjLen(h[prev.data]) - 1)
    ensures prev.kind == MapKind && prev.data < |h| && h[prev.data].DictObj? && prevKey.Some? ==>
              LinkTarget(h, prev, prevKey) == FindKey(h[prev.data].pairs, prevKey.value)
    ensures LinkTarget(h, prev, prevKey).None? ==> r == Err(LookupError)
    ensures LinkTarget(h, prev, prevKey).Some? ==>
              var j := LinkTarget(h, prev, prevKey).value;
              && (r.Ok? <==> !SlotTruthy(h, SlotAt(h[prev.data], j)))
              && (r.Err? ==> r == Err(Raised(if prev.kind == SeqKind then SequenceLineHasData else MappingLineHasData)))
              && (r.Ok? ==> LinkedAt(h, r.value, prev.data, j, n))
  {
    if prev.data >= |h| then Err(LookupError)
    else
      match (prev.kind, h[prev.data])
      case (SeqKind, ListObj(xs)) =>
        if |xs| == 0 then Err(LookupError)
        else if SlotTruthy(h, xs[|xs| - 1]) then Err(Raised(SequenceLineHasData))
        else
          var o' := ListObj(xs[|xs| - 1 := Ref(n)]);
          var j := |xs| - 1;
          assert SameButSlot(h[prev.data], o', j) && SlotAt(o', j) == Ref(n);
          assert 0 <= j < ObjLen(h[prev.data]) && !SlotTruthy(h, SlotAt(h[prev.data], j));
          Ok(h[prev.data := o'])
      case (MapKind, DictObj(ps)) =>
        if prevKey.None? || FindKey(ps, prevKey.value).None? then Err(LookupError)
        else
          var i := FindKey(ps, prevKey.value).value;
          if SlotTruthy(h, ps[i].1) then Err(Raised(MappingLineHasData))
          else
            var o' := DictObj(DictSet(ps, prevKey.value, Ref(n)));
            assert o'.pairs == ps[i := (prevKey.value, Ref(n))];
            assert SameButSlot(h[prev.data], o', i) && SlotAt(o', i) == Ref(n);
            assert 0 <= i < ObjLen(h[prev.data]) && !SlotTruthy(h, SlotAt(h[prev.data], i));
            Ok(h[prev.data := o'])
      case _ => Err(LookupError)
  }

  /** `o'` is `o` with at most slot `j` changed: same kind, length and keys. */
  predicate SameButSlot(o: Obj, o': Obj, j: nat) {
    && o.ListObj? == o'.ListObj?
    && ObjLen(o) == ObjLen(o')
    && (forall i :: 0 <= i < ObjLen(o) && i != j ==> SlotAt(o, i) == SlotAt(o', i))
    && (o.DictObj? ==> forall i :: 0 <= i < |o.pairs| ==> o.pairs[i].0 == o'.pairs[i].0)
  }

  /** Every frame of the stack names an object on the heap of the frame's
      kind. */
  predicate Consistent(st: PyState) {
    forall i :: 0 <= i < |st.stack| ==>
      && st.stack[i].data < |st.heap|
      && (st.heap[st.stack[i].data].ListObj? <==> st.stack[i].kind == SeqKind)
  }

  /** Lines 315-326: adds the entry to the container of the top frame. An
      entry of the wrong type and a repeated key are rejected; otherwise the
      value is appended as a new last slot of the top container and nothing
      else on the heap or the stack changes. */
  function PyAdd(st: PyState, e: Entry): (r: Result<PyState, PyFailure>)
    requires |st.stack| > 0
    ensures EntryKind(e) != st.stack[|st.stack| - 1].kind ==> r == Err(Raised(InvalidEntryType))
    ensures var a := st.stack[|st.stack| - 1].data;
            && EntryKind(e) == st.stack[|st.stack| - 1].kind && a < |st.heap| && e.Pair? && st.heap[a].DictObj?
            && FindKey(st.heap[a].pairs, e.key).Some? ==>
              r == Err(Raised(DuplicateKey))
    ensures Consistent(st) ==>
              (r.Ok? <==> EntryKind(e) == st.stack[|st.stack| - 1].kind
                            && !(e.Pair? && FindKey(st.heap[st.stack[|st.stack| - 1].data].pairs, e.key).Some?))
    ensures r.Ok? ==>
              var a := st.stack[|st.stack| - 1].data;
              && a < |st.heap| && r.value.stack == st.stack && |r.value.heap| == |st.heap|
              && (forall x :: 0 <= x < |st.heap| && x != a ==> r.value.heap[x] == st.heap[x])
              && r.value.prevKey == (if e.Pair? then Some(e.key) else None)
              && var o, o' := st.heap[a], r.value.heap[a];
                 && o.ListObj? == o'.ListObj? && ObjLen(o') == ObjLen(o) + 1
                 && (forall j :: 0 <= j < ObjLen(o) ==> SlotAt(o', j) == SlotAt(o, j))
                 && SlotAt(o', ObjLen(o)) == Str(e.value)
                 && (o'.DictObj? ==> e.Pair? && o'.pairs[ObjLen(o)].0 == e.key
                                     && forall j :: 0 <= j < ObjLen(o) ==> o'.pairs[j].0 == o.pairs[j].0)
    ensures Consistent(st) && r.Ok? ==> Consistent(r.value)
  {
    var curr := st.stack[|st.stack| - 1];
    if EntryKind(e) != curr.kind then Err(Raised(InvalidEntryType))
    else if curr.data >= |st.heap| then Err(LookupError)
    else
      match (e, st.heap[curr.data])
      case (Item(v), ListObj(xs)) =>
        Ok(PyState(st.heap[curr.data := ListObj(xs + [Str(v)])], st.stack, None))
      case (Pair(k, v), DictObj(ps)) =>
        if FindKey(ps, k).Some? then Err(Raised(DuplicateKey))
        else Ok(PyState(st.heap[curr.data := DictObj(DictSet(ps, k, Str(v)))], st.stack, Some(k)))
      case _ => Err(LookupError)
  }

  /** Lines 306-313: pop, fail on an empty stack, stop at an equal indent. */
  function PyUnwind(stack: seq<PyFrame>, indent: nat): (r: Result<seq<PyFrame>, PyFailure>)
    requires |stack| > 0
    ensures r.Ok? ==> 0 < |r.value| < |stack| && r.value == stack[..|r.value|]
    ensures r.Ok? ==> r.value[|r.value| - 1].indent == indent
    ensures r.Err? ==> r == Err(Raised(InvalidIndentation))
    ensures r.Ok? <==> OpenLevel(stack, indent)
    ensures r.Ok? ==> NoLevelBetween(stack, indent, |r.value|)
    decreases |stack|
  {
    var rest := stack[..|stack| - 1];
    if |rest| == 0 then Err(Raised(InvalidIndentation))
    else if rest[|rest| - 1].indent == indent then Ok(rest)
    else PyUnwind(rest, indent)
  }

  /** Some frame below the top has indent `indent`. */
  predicate OpenLevel(stack: seq<PyFrame>, indent: nat) {
    exists j :: 0 <= j < |stack| - 1 && stack[j].indent == indent
  }

  /** No frame from position `k` up to just below the top has indent `indent`. */
  predicate NoLevelBetween(stack: seq<PyFrame>, indent: nat, k: nat) {
    forall j :: k <= j < |stack| - 1 ==> stack[j].indent != indent
  }

  /** The one-slot object the program builds for a first or nested entry. */
  function StartObj(e: Entry): Obj {
    match e
    case Item(v) => ListObj([Str(v)])
    case Pair(k, v) => DictObj([(k, Str(v))])
  }

  /** The body of the parsing loop for one non-blank entry (lines 269-326):
      the first entry makes the root object; afterwards the entry lands in a
      frame at its own indent, of its own type, with at most one new object
      on the heap; a dedent to an indent no open frame has is rejected. */
  function PyStep(st: PyState, indent: nat, e: Entry): (r: Result<PyState, PyFailure>)
    ensures |st.stack| == 0 ==>
              && r.Ok? && |r.value.stack| == 1 && r.value.stack[0].data < |r.value.heap|
              && r.value.heap[r.value.stack[0].data] == StartObj(e)
    ensures r.Ok? ==>
              && |r.value.stack| > 0
              && r.value.stack[|r.value.stack| - 1].indent == indent
              && r.value.stack[|r.value.stack| - 1].kind == EntryKind(e)
              && |st.heap| <= |r.value.heap| <= |st.heap| + 1
    ensures |st.stack| > 0 && indent < st.stack[|st.stack| - 1].indent && PyUnwind(st.stack, indent).Err? ==>
              r == Err(Raised(InvalidIndentation))
    ensures Consistent(st) && r.Ok? ==> Consistent(r.value)
  {
    if |st.stack| == 0 then
      var obj := StartObj(e);
      var prevKey := match e
        case Item(_) => None
        case Pair(k, _) => Some(k);
      Ok(PyState(st.heap + [obj], [PyFrame(EntryKind(e), indent, |st.heap|)], prevKey))
    else
      var curr := st.stack[|st.stack| - 1];
      if indent > curr.indent then PyNest(st, indent, e)
      else if indent < curr.indent then PyDedent(st, indent, e)
      else PyAdd(st, e)
  }

  /** Lines 284-303, then 315-326: a deeper entry opens a new, empty
      container of its own type, linked into the previous entry's slot, and
      lands in it. */
  function PyNest(st: PyState, indent: nat, e: Entry): (r: Result<PyState, PyFailure>)
    requires |st.stack| > 0
    ensures r.Ok? ==>
              && |r.value.stack| == |st.stack| + 1 && |r.value.heap| == |st.heap| + 1
              && r.value.stack[|st.stack|] == PyFrame(EntryKind(e), indent, |st.heap|)
    ensures Consistent(st) && r.Ok? ==> Consistent(r.value)
  {
    var curr := st.stack[|st.stack| - 1];
    var n := |st.heap|;
    var empty := if e.Pair? then DictObj([]) else ListObj([]);
    var stack' := st.stack + [PyFrame(EntryKind(e), indent, n)];
    var heap' :- Link(st.heap + [empty], curr, st.prevKey, n);
    LinkKeepsConsistent(st, indent, e, heap');
    PyAdd(PyState(heap', stack', st.prevKey), e)
  }

  /** Lines 306-313, then 315-326: a shallower entry closes frames down to
      the one at its indent, which must exist, and lands there. */
  function PyDedent(st: PyState, indent: nat, e: Entry): (r: Result<PyState, PyFailure>)
    requires |st.stack| > 0
    ensures PyUnwind(st.stack, indent).Err? ==> r == Err(Raised(InvalidIndentation))
    ensures r.Ok? ==>
              && 0 < |r.value.stack| < |st.stack| && |r.value.heap| == |st.heap|
              && r.value.stack[|r.value.stack| - 1].indent == indent
              && r.value.stack[|r.value.stack| - 1].kind == EntryKind(e)
    ensures Consistent(st) && r.Ok? ==> Consistent(r.value)
  {
    var stack' :- PyUnwind(st.stack, indent);
    assert forall i :: 0 <= i < |stack'| ==> stack'[i] == st.stack[i];
    PyAdd(PyState(st.heap, stack', st.prevKey), e)
  }

  /** Linking a new, empty container of the entry's type below the top frame
      and pushing its frame keeps every frame pointing at an object of its
      kind. */
  lemma LinkKeepsConsistent(st: PyState, indent: nat, e: Entry, h': seq<Obj>)
    requires |st.stack| > 0
    requires Link(st.heap + [if e.Pair? then DictObj([]) else ListObj([])], st.stack[|st.stack| - 1], st.prevKey, |st.heap|) == Ok(h')
    ensures Consistent(st) ==> Consistent(PyState(h', st.stack + [PyFrame(EntryKind(e), indent, |st.heap|)], st.prevKey))
  {
    var n := |st.heap|;
    var h1 := st.heap + [if e.Pair? then DictObj([]) else ListObj([])];
    var a := st.stack[|st.stack| - 1].data;
    if Consistent(st) {
      assert a < n;
      assert h'[n] == h1[n];
      var o, o' := h1[a], h'[a];
      assert o.ListObj? == o'.ListObj?;
      var stack' := st.stack + [PyFrame(EntryKind(e), indent, n)];
      forall i | 0 <= i < |stack'|
        ensures stack'[i].data < |h'| && (h'[stack'[i].data].ListObj? <==> stack'[i].kind == SeqKind)
      {
        if i < |st.stack| {
          assert stack'[i] == st.stack[i];
          assert h1[stack'[i].data] == st.heap[stack'[i].data];
        }
      }
    }
  }

  /** One scanned line of the loop, with the scanner shared with the engine:
      a scanner error stops the parse, a blank line changes nothing, and a
      step's own error is reported with the line's number. */
  function PyFeed(st: PyState, lx: Result<Lexed, Error>, lineNo: nat): (r: Result<PyState, PyError>)
    ensures lx.Err? ==> r == Err(Failed(lx.error))
    ensures lx == Ok(Blank) ==> r == Ok(st)
    ensures lx.Ok? && lx.value.Content? && PyStep(st, lx.value.indent, lx.value.entry).Err? ==>
              r.Err? && (r.error.Failed? ==> r.error.error.LineError? && r.error.error.line == lineNo)
    ensures Consistent(st) && r.Ok? ==> Consistent(r.value)
  {
    match lx
    case Err(err) => Err(Failed(err))
    case Ok(Blank) => Ok(st)
    case Ok(Content(indent, e)) =>
      match PyStep(st, indent, e)
      case Err(Raised(reason)) => Err(Failed(LineError(lineNo, reason)))
      case Err(LookupError) => Err(LookupFailed)
      case Ok(st') => Ok(st')
  }

  /** The interpreter state after the first `n` lines: reached only when
      none of them failed to scan, and every frame in it names an object of
      its kind. */
  function PyRun(ls: seq<Result<Lexed, Error>>, n: nat): (r: Result<PyState, PyError>)
    requires n <= |ls|
    ensures r.Ok? ==> forall i :: 0 <= i < n ==> ls[i].Ok?
    ensures r.Ok? ==> Consistent(r.value)
  {
    if n == 0 then Ok(PyState([], [], None))
    else
      var st :- PyRun(ls, n - 1);
      PyFeed(st, ls[n - 1], n)
  }

  /** The value reachable from object `a`, read as a tree. A container only
      refers to objects created after it, so references to earlier or
      missing objects are read as an empty string; they never occur. */
  function Resolve(h: seq<Obj>, a: nat): (r: Node)
    ensures a >= |h| ==> r == Scalar("")
    ensures a < |h| ==> (r.Sequence? <==> h[a].ListObj?) && (r.Mapping? <==> h[a].DictObj?)
    ensures a < |h| && r.Sequence? ==> |r.items| == ObjLen(h[a])
    ensures a < |h| && r.Mapping? ==>
              |r.entries| == ObjLen(h[a]) && forall j :: 0 <= j < |r.entries| ==> r.entries[j].0 == h[a].pairs[j].0
    decreases |h| - a, 2
  {
    if a >= |h| then Scalar("")
    else
      match h[a]
      case ListObj(xs) => Sequence(ResolveSlots(h, a, xs))
      case DictObj(ps) => Mapping(ResolvePairs(h, a, ps))
  }

  function ResolveSlot(h: seq<Obj>, a: nat, s: Slot): Node
    requires a < |h|
    decreases |h| - a, 0
  {
    match s
    case Str(t) => Scalar(t)
    case Ref(y) => if a < y < |h| then Resolve(h, y) else Scalar("")
  }

  function ResolveSlots(h: seq<Obj>, a: nat, xs: seq<Slot>): (r: seq<Node>)
    requires a < |h|
    ensures |r| == |xs| && forall j :: 0 <= j < |xs| ==> r[j] == ResolveSlot(h, a, xs[j])
    decreases |h| - a, 1, |xs|
  {
    if xs == [] then [] else ResolveSlots(h, a, xs[..|xs| - 1]) + [ResolveSlot(h, a, xs[|xs| - 1])]
  }

  function ResolvePairs(h: seq<Obj>, a: nat, ps: seq<(string, Slot)>): (r: seq<(string, Node)>)
    requires a < |h|
    ensures |r| == |ps| && forall j :: 0 <= j < |ps| ==> r[j] == (ps[j].0, ResolveSlot(h, a, ps[j].1))
    decreases |h| - a, 1, |ps|
  {
    if ps == [] then []
    else ResolvePairs(h, a, ps[..|ps| - 1]) + [(ps[|ps| - 1].0, ResolveSlot(h, a, ps[|ps| - 1].1))]
  }

  /** What the source returns: the bottom frame's container, with every
      nested container seen through the references linked into it. */
  function PyParse(lines: seq<string>): (r: Result<Node, PyError>)
    ensures r.Ok? ==> r.value.Sequence? || r.value.Mapping?
    ensures PyRun(LexAll(lines), |lines|).Ok? ==>
              (r == Err(Failed(NoEntries)) <==> PyRun(LexAll(lines), |lines|).value.stack == [])
  {
    var st :- PyRun(LexAll(lines), |lines|);
    if |st.stack| == 0 then Err(Failed(NoEntries))
    else Ok(Resolve(st.heap, st.stack[0].data))
  }
}
