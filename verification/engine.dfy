/** The nesting stack engine of `_parse_yaml_subset_from_file`, stated
    functionally: every open frame owns its container outright, the parent
    keeps an empty placeholder in the slot the child will fill, and the child
    is written into that slot when its frame is popped. */
module Engine {
  import opened Results
  import opened Nodes
  import opened Errors
  import opened Scanner

  /** The container a frame is building: list items or dictionary entries. */
  datatype Body = Items(items: seq<Node>) | Entries(entries: seq<(string, Node)>)

  /** `_StackFrame`: the entry type is the kind of `body`. */
  datatype Frame = Frame(indent: nat, body: Body)

  function BodyKind(b: Body): Kind {
    if b.Items? then SeqKind else MapKind
  }

  function Size(b: Body): nat {
    match b
    case Items(xs) => |xs|
    case Entries(es) => |es|
  }

  /** The value in slot `j`: a list item or the value of the `j`-th entry. */
  function ValueAt(b: Body, j: nat): Node
    requires j < Size(b)
  {
    match b
    case Items(xs) => xs[j]
    case Entries(es) => es[j].1
  }

  /** The slot of the most recent entry (the source's `data[-1]` or `data[prev_key]`). */
  function LastValue(b: Body): Node
    requires Size(b) > 0
  {
    ValueAt(b, Size(b) - 1)
  }

  function ToNode(b: Body): Node {
    match b
    case Items(xs) => Sequence(xs)
    case Entries(es) => Mapping(es)
  }

  predicate BodyWF(b: Body) {
    WellFormed(ToNode(b))
  }

  /** `a` and `b` are the same container except possibly for the value in
      the last slot: same kind, same size, same keys, same other values. */
  predicate SameExceptLast(a: Body, b: Body) {
    && BodyKind(a) == BodyKind(b)
    && Size(a) == Size(b)
    && (forall j :: 0 <= j < Size(a) - 1 ==> ValueAt(a, j) == ValueAt(b, j))
    && (a.Entries? ==> forall j :: 0 <= j < |a.entries| ==> a.entries[j].0 == b.entries[j].0)
  }

  /** Overwrites the last slot with `n`, keeping its key. */
  function SetLast(b: Body, n: Node): (r: Body)
    requires Size(b) > 0
    ensures SameExceptLast(r, b)
    ensures LastValue(r) == n
    ensures BodyWF(b) && WellFormed(n) ==> BodyWF(r)
  {
    match b
    case Items(xs) => Items(xs[|xs| - 1 := n])
    case Entries(es) =>
      var r := Entries(es[|es| - 1 := (es[|es| - 1].0, n)]);
      assert BodyWF(b) && WellFormed(n) ==> BodyWF(r) by {
        if BodyWF(b) && WellFormed(n) {
          assert forall j :: 0 <= j < |es| ==> r.entries[j].0 == es[j].0;
        }
      }
      r
  }

  /** The one-entry container created by a first entry or a deeper line. */
  function Start(e: Entry): (r: Body)
    ensures BodyKind(r) == EntryKind(e) && Size(r) == 1 && BodyWF(r)
    ensures LastValue(r) == Scalar(e.value)
    ensures e.Pair? ==> r.entries[0].0 == e.key
  {
    match e
    case Item(v) => Items([Scalar(v)])
    case Pair(k, v) => Entries([(k, Scalar(v))])
  }

  /** Adds an entry to the container of the level it belongs to: the entry
      must be of the container's kind, a sequence value is appended, and a
      mapping key must not be in that mapping already. */
  function Insert(b: Body, e: Entry): (r: Result<Body, Reason>)
    ensures r.Ok? <==> BodyKind(b) == EntryKind(e) && !(e.Pair? && HasKey(b.entries, e.key))
    ensures BodyKind(b) != EntryKind(e) ==> r == Err(InvalidEntryType)
    ensures BodyKind(b) == EntryKind(e) && e.Pair? && HasKey(b.entries, e.key) ==> r == Err(DuplicateKey)
    ensures r.Ok? && e.Item? ==> r.value == Items(b.items + [Scalar(e.value)])
    ensures r.Ok? && e.Pair? ==> r.value == Entries(b.entries + [(e.key, Scalar(e.value))])
    ensures r.Ok? && BodyWF(b) ==> BodyWF(r.value)
  {
    match (b, e)
    case (Items(xs), Item(v)) =>
      var r := Items(xs + [Scalar(v)]);
      assert BodyWF(b) ==> BodyWF(r) by {
        if BodyWF(b) {
          assert forall j :: 0 <= j < |xs| ==> r.items[j] == xs[j];
        }
      }
      Ok(r)
    case (Entries(es), Pair(k, v)) =>
      if HasKey(es, k) then Err(DuplicateKey)
      else
        var r := Entries(es + [(k, Scalar(v))]);
        assert BodyWF(b) ==> BodyWF(r) by {
          if BodyWF(b) {
            assert forall j :: 0 <= j < |es| ==> r.entries[j] == es[j];
            assert forall j :: 0 <= j < |es| ==> es[j].0 != k;
          }
        }
        Ok(r)
    case _ => Err(InvalidEntryType)
  }

  /** Frame `i` holds a non-empty, well-formed container. */
  predicate Filled(fs: seq<Frame>, i: int)
    requires 0 <= i < |fs|
  {
    Size(fs[i].body) > 0 && BodyWF(fs[i].body)
  }

  /** Frame `i` sits strictly less indented than frame `j`. */
  predicate Below(fs: seq<Frame>, i: int, j: int)
    requires 0 <= i < j < |fs|
  {
    fs[i].indent < fs[j].indent
  }

  /** Frame `i`'s last slot is still the empty placeholder that the frame
      above it will fill when popped. */
  predicate Pending(fs: seq<Frame>, i: int)
    requires 0 <= i < |fs| && Filled(fs, i)
  {
    LastValue(fs[i].body) == Scalar("")
  }

  /** The invariant of every stack the engine builds: no container is empty
      and every mapping has unique keys; indents strictly increase from bottom
      to top; below the top, every frame's last slot is pending. */
  predicate ValidStack(fs: seq<Frame>) {
    && (forall i :: 0 <= i < |fs| - 1 ==> Filled(fs, i))
    && (|fs| > 0 ==> Filled(fs, |fs| - 1))
    && (forall i, j :: 0 <= i < j < |fs| ==> Below(fs, i, j))
    && (forall i :: 0 <= i < |fs| - 1 ==> Pending(fs, i))
  }

  /** After a line has been added, the top frame's last slot holds that
      line's scalar value. */
  predicate Settled(fs: seq<Frame>)
    requires ValidStack(fs)
  {
    |fs| > 0 ==> LastValue(fs[|fs| - 1].body).Scalar?
  }

  /** Pops the top frame and writes its container into the parent's last slot. */
  function PopInto(fs: seq<Frame>): (r: seq<Frame>)
    requires ValidStack(fs) && |fs| >= 2
    ensures ValidStack(r)
    ensures |r| == |fs| - 1
    ensures r[..|r| - 1] == fs[..|fs| - 2]
    ensures r[|r| - 1].indent == fs[|fs| - 2].indent
    ensures SameExceptLast(r[|r| - 1].body, fs[|fs| - 2].body)
    ensures LastValue(r[|r| - 1].body) == ToNode(fs[|fs| - 1].body)
    ensures r[0].body.Items? == fs[0].body.Items? && Size(r[0].body) == Size(fs[0].body)
  {
    var parent := fs[|fs| - 2];
    var child := fs[|fs| - 1];
    assert Filled(fs, |fs| - 2);
    var r := fs[..|fs| - 2] + [Frame(parent.indent, SetLast(parent.body, ToNode(child.body)))];
    assert forall i :: 0 <= i < |fs| - 2 ==> r[i] == fs[i];
    forall i, j | 0 <= i < j < |r| ensures Below(r, i, j) {
      assert Below(fs, i, j);
    }
    forall i | 0 <= i < |r| - 1 ensures Filled(r, i) && Pending(r, i) {
      assert Filled(fs, i) && Pending(fs, i);
    }
    r
  }

  /** The unwinding loop: pop frames until the top has exactly `indent`;
      fails when the stack runs out first. */
  function Unwind(fs: seq<Frame>, indent: nat): (r: Result<seq<Frame>, Reason>)
    requires ValidStack(fs) && |fs| >= 1
    ensures r.Ok? <==> exists j :: 0 <= j < |fs| - 1 && fs[j].indent == indent
    ensures r.Err? ==> r.error == InvalidIndentation
    ensures r.Ok? ==> Unwound(fs, indent, r.value)
    ensures r.Ok? ==> FoldedIntoTop(fs, r.value)
    decreases |fs|
  {
    if |fs| == 1 then Err(InvalidIndentation)
    else
      var up := PopInto(fs);
      if up[|up| - 1].indent == indent then
        UnwoundByPop(fs, up, indent);
        FoldedByPop(fs, up);
        Ok(up)
      else
        var r := Unwind(up, indent);
        UnwoundAfterPop(fs, up, indent, r);
        FoldedAfterPop(fs, up, r);
        r
  }

  /** The frames above the new top `r` were folded into its last slot: that
      slot now holds what closing the popped frames `fs[|r|..]` gives. */
  predicate FoldedIntoTop(fs: seq<Frame>, r: seq<Frame>) {
    && 1 <= |r| < |fs|
    && Size(r[|r| - 1].body) > 0
    && ValidStack(fs[|r|..])
    && LastValue(r[|r| - 1].body) == CloseAll(fs[|r|..])
  }

  /** Every suffix of a valid stack is a valid stack. */
  lemma SuffixValid(fs: seq<Frame>, k: nat)
    requires ValidStack(fs) && k <= |fs|
    ensures ValidStack(fs[k..])
  {
    var s := fs[k..];
    assert forall i :: 0 <= i < |s| ==> s[i] == fs[k + i];
    forall i | 0 <= i < |s| ensures Filled(s, i) {
      assert Filled(fs, k + i);
    }
    forall i, j | 0 <= i < j < |s| ensures Below(s, i, j) {
      assert Below(fs, k + i, k + j);
    }
    forall i | 0 <= i < |s| - 1 ensures Pending(s, i) {
      assert Filled(fs, k + i) && Pending(fs, k + i);
    }
  }

  /** Popping commutes with dropping frames from the bottom. */
  lemma PopIntoSuffix(fs: seq<Frame>, k: nat)
    requires ValidStack(fs) && |fs| >= 2 && k < |fs| - 1
    ensures ValidStack(fs[k..]) && PopInto(fs)[k..] == PopInto(fs[k..])
  {
    SuffixValid(fs, k);
    var s := fs[k..];
    assert s[|s| - 2] == fs[|fs| - 2] && s[|s| - 1] == fs[|fs| - 1];
    assert s[..|s| - 2] == fs[..|fs| - 2][k..];
  }

  lemma FoldedByPop(fs: seq<Frame>, up: seq<Frame>)
    requires ValidStack(fs) && |fs| >= 2 && up == PopInto(fs)
    ensures FoldedIntoTop(fs, up)
  {
    assert fs[|up|..] == [fs[|fs| - 1]];
    SuffixValid(fs, |up|);
  }

  lemma FoldedAfterPop(fs: seq<Frame>, up: seq<Frame>, r: Result<seq<Frame>, Reason>)
    requires ValidStack(fs) && |fs| >= 2 && up == PopInto(fs)
    requires r.Ok? ==> FoldedIntoTop(up, r.value)
    ensures r.Ok? ==> FoldedIntoTop(fs, r.value)
  {
    if r.Ok? {
      var k := |r.value|;
      PopIntoSuffix(fs, k);
      assert CloseAll(fs[k..]) == CloseAll(PopInto(fs[k..]));
    }
  }

  /** `r` is what unwinding `fs` to `indent` leaves: a non-empty proper
      prefix of the frames whose top has `indent`, unchanged below the top,
      and whose top container differs from the original only in its last slot. */
  predicate Unwound(fs: seq<Frame>, indent: nat, r: seq<Frame>) {
    && ValidStack(r)
    && 1 <= |r| < |fs|
    && r[|r| - 1].indent == indent == fs[|r| - 1].indent
    && r[..|r| - 1] == fs[..|r| - 1]
    && SameExceptLast(r[|r| - 1].body, fs[|r| - 1].body)
  }

  lemma UnwoundByPop(fs: seq<Frame>, up: seq<Frame>, indent: nat)
    requires ValidStack(fs) && |fs| >= 2 && up == PopInto(fs)
    requires up[|up| - 1].indent == indent
    ensures Unwound(fs, indent, up)
    ensures exists j :: 0 <= j < |fs| - 1 && fs[j].indent == indent
  {
    assert fs[|fs| - 2].indent == indent;
  }

  lemma UnwoundAfterPop(fs: seq<Frame>, up: seq<Frame>, indent: nat, r: Result<seq<Frame>, Reason>)
    requires ValidStack(fs) && |fs| >= 2 && up == PopInto(fs)
    requires up[|up| - 1].indent != indent
    requires r.Ok? <==> exists j :: 0 <= j < |up| - 1 && up[j].indent == indent
    requires r.Ok? ==> Unwound(up, indent, r.value)
    ensures r.Ok? <==> exists j :: 0 <= j < |fs| - 1 && fs[j].indent == indent
    ensures r.Ok? ==> Unwound(fs, indent, r.value)
  {
    assert forall j :: 0 <= j < |up| - 1 ==> up[j] == fs[j] by {
      forall j | 0 <= j < |up| - 1 ensures up[j] == fs[j] {
        assert up[..|up| - 1][j] == fs[..|fs| - 2][j];
      }
    }
    if r.Ok? {
      var k := |r.value|;
      assert k < |up|;
      assert r.value[..k - 1] == fs[..k - 1] by {
        assert up[..k - 1] == fs[..k - 1];
      }
      assert fs[k - 1] == up[k - 1];
    }
  }

  /** A line deeper than the top: its entry opens a new container that will
      fill the top's last slot, which must still be empty. */
  function Nest(fs: seq<Frame>, indent: nat, e: Entry): (r: Result<seq<Frame>, Reason>)
    requires ValidStack(fs) && |fs| > 0 && indent > fs[|fs| - 1].indent
    ensures r.Ok? <==> LastValue(fs[|fs| - 1].body) == Scalar("")
    ensures r.Ok? ==> r.value == fs + [Frame(indent, Start(e))]
    ensures r.Ok? ==> ValidStack(r.value) && Settled(r.value)
    ensures r.Err? ==>
              r.error == (if fs[|fs| - 1].body.Items? then SequenceLineHasData else MappingLineHasData)
  {
    var top := fs[|fs| - 1];
    if LastValue(top.body) != Scalar("") then
      Err(if top.body.Items? then SequenceLineHasData else MappingLineHasData)
    else
      var r := fs + [Frame(indent, Start(e))];
      assert forall i :: 0 <= i < |fs| ==> r[i] == fs[i];
      forall i, j | 0 <= i < j < |r| ensures Below(r, i, j) {
        if j < |fs| {
          assert Below(fs, i, j);
        } else if i < |fs| - 1 {
          assert Below(fs, i, |fs| - 1);
        }
      }
      forall i | 0 <= i < |r| - 1 ensures Filled(r, i) && Pending(r, i) {
        if i < |fs| - 1 {
          assert Filled(fs, i) && Pending(fs, i);
        }
      }
      Ok(r)
  }

  /** A line at the top's level: the entry is added to the top container. */
  function AddAtLevel(level: seq<Frame>, e: Entry): (r: Result<seq<Frame>, Reason>)
    requires ValidStack(level) && |level| > 0
    ensures var ins := Insert(level[|level| - 1].body, e);
            && (r.Ok? <==> ins.Ok?)
            && (r.Err? ==> r.error == ins.error)
            && (r.Ok? ==> r.value == level[..|level| - 1] + [Frame(level[|level| - 1].indent, ins.value)])
    ensures r.Ok? ==> ValidStack(r.value) && Settled(r.value) && |r.value| == |level|
    ensures r.Ok? ==> r.value[0].indent == level[0].indent && BodyKind(r.value[0].body) == BodyKind(level[0].body)
  {
    var top := level[|level| - 1];
    var body :- Insert(top.body, e);
    var r := level[..|level| - 1] + [Frame(top.indent, body)];
    assert forall i :: 0 <= i < |level| - 1 ==> r[i] == level[i];
    forall i, j | 0 <= i < j < |r| ensures Below(r, i, j) {
      assert Below(level, i, j);
    }
    forall i | 0 <= i < |r| - 1 ensures Filled(r, i) && Pending(r, i) {
      assert Filled(level, i) && Pending(level, i);
    }
    Ok(r)
  }

  /** One non-blank line at `indent` holding entry `e`: the first entry
      creates the root; a deeper line opens a nested container in the
      (empty) last slot of the top; a line at the top's level is added to
      it; a shallower line first unwinds to the level it matches. */
  function Step(fs: seq<Frame>, indent: nat, e: Entry): (r: Result<seq<Frame>, Reason>)
    requires ValidStack(fs)
    ensures r.Ok? ==> ValidStack(r.value) && Settled(r.value) && |r.value| >= 1
    ensures |fs| == 0 ==> r == Ok([Frame(indent, Start(e))])
    ensures |fs| > 0 && r.Ok? ==>
              r.value[0].indent == fs[0].indent && BodyKind(r.value[0].body) == BodyKind(fs[0].body)
    ensures |fs| > 0 && indent > fs[|fs| - 1].indent ==> r == Nest(fs, indent, e)
    ensures |fs| > 0 && indent == fs[|fs| - 1].indent ==> r == AddAtLevel(fs, e)
    ensures |fs| > 0 && indent < fs[|fs| - 1].indent ==>
              && ((forall j :: 0 <= j < |fs| ==> fs[j].indent != indent) ==> r == Err(InvalidIndentation))
              && (r.Ok? ==> |r.value| < |fs| && r.value[..|r.value| - 1] == fs[..|r.value| - 1])
    ensures |fs| > 0 && indent < fs[|fs| - 1].indent ==>
              && (Unwind(fs, indent).Err? ==> r == Err(Unwind(fs, indent).error))
              && (Unwind(fs, indent).Ok? ==> r == AddAtLevel(Unwind(fs, indent).value, e))
  {
    if |fs| == 0 then
      Ok([Frame(indent, Start(e))])
    else if indent > fs[|fs| - 1].indent then
      Nest(fs, indent, e)
    else if indent == fs[|fs| - 1].indent then
      AddAtLevel(fs, e)
    else
      var level :- Unwind(fs, indent);
      var r := AddAtLevel(level, e);
      assert r.Ok? ==> r.value[0].indent == fs[0].indent && BodyKind(r.value[0].body) == BodyKind(fs[0].body) by {
        if r.Ok? && |level| > 1 {
          assert level[0] == level[..|level| - 1][0] == fs[..|level| - 1][0];
        }
      }
      assert r.Ok? ==> r.value[..|r.value| - 1] == fs[..|r.value| - 1] by {
        if r.Ok? {
          assert r.value[..|r.value| - 1] == level[..|level| - 1];
        }
      }
      r
  }

  /** One scanned input line, number `lineNo`: a blank or comment-only line
      leaves the stack exactly as it was; a scanner error stops the pass; an
      engine rejection is reported at this line. */
  function Feed(fs: seq<Frame>, lx: Result<Lexed, Error>, lineNo: nat): (r: Result<seq<Frame>, Error>)
    requires ValidStack(fs)
    ensures r.Ok? ==> ValidStack(r.value)
    ensures r.Ok? && Settled(fs) ==> Settled(r.value)
    ensures lx == Ok(Blank) ==> r == Ok(fs)
    ensures lx.Err? ==> r == lx.PropagateFailure()
    ensures r.Err? && lx.Ok? ==> r.error.LineError? && r.error.line == lineNo
    ensures r.Err? && lx.Ok? ==> r.error.reason != IndentWithSpacesOnly
    ensures lx.Ok? && lx.value.Content? ==>
              var step := Step(fs, lx.value.indent, lx.value.entry);
              && (step.Ok? ==> r == Ok(step.value))
              && (step.Err? ==> r == Err(LineError(lineNo, step.error)))
    ensures |fs| > 0 && r.Ok? ==>
              && |r.value| > 0
              && r.value[0].indent == fs[0].indent
              && BodyKind(r.value[0].body) == BodyKind(fs[0].body)
  {
    match lx
    case Err(err) => Err(err)
    case Ok(Blank) => Ok(fs)
    case Ok(Content(indent, e)) =>
      match Step(fs, indent, e)
      case Err(reason) => Err(LineError(lineNo, reason))
      case Ok(next) => Ok(next)
  }

  /** The stack after the first `n` scanned lines (line numbers start at
      1); the first failure stops the pass. */
  function Run(ls: seq<Result<Lexed, Error>>, n: nat): (r: Result<seq<Frame>, Error>)
    requires n <= |ls|
    ensures r.Ok? ==> ValidStack(r.value) && Settled(r.value)
    ensures (forall i :: 0 <= i < n && ls[i].Err? ==> ls[i].error != NoEntries) ==>
              (r.Err? ==> r.error != NoEntries)
  {
    if n == 0 then Ok([])
    else
      var fs :- Run(ls, n - 1);
      Feed(fs, ls[n - 1], n)
  }

  /** End of input: pop every open frame into its parent; the bottom frame's
      container is the document. */
  function CloseAll(fs: seq<Frame>): (r: Node)
    requires ValidStack(fs) && |fs| >= 1
    ensures WellFormed(r)
    ensures fs[0].body.Items? ==> r.Sequence? && |r.items| == Size(fs[0].body)
    ensures fs[0].body.Entries? ==> r.Mapping? && |r.entries| == Size(fs[0].body)
    decreases |fs|
  {
    if |fs| == 1 then ToNode(fs[0].body)
    else
      CloseAll(PopInto(fs))
  }

  /** `_parse_yaml_subset_from_file` on the lines of a file: the result is
      always a list or a dictionary, never a bare scalar, and every
      dictionary in it has unique keys. */
  function Parse(lines: seq<string>): (r: Result<Node, Error>)
    ensures r.Ok? ==> WellFormed(r.value) && (r.value.Sequence? || r.value.Mapping?)
    ensures r.Ok? ==> Run(LexAll(lines), |lines|).Ok? && |Run(LexAll(lines), |lines|).value| > 0
    ensures Run(LexAll(lines), |lines|) == Ok([]) <==> r == Err(NoEntries)
  {
    var fs :- Run(LexAll(lines), |lines|);
    if |fs| == 0 then Err(NoEntries) else Ok(CloseAll(fs))
  }
}
