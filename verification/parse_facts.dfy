/** Whole-file properties of `_parse_yaml_subset_from_file`: where it fails,
    what blank lines and comments do, and what the root of the document is.

    Each inductive proof below looks at the pass at two neighbouring line
    counts only; the one-line facts it needs are the `...Step` lemmas. */
module ParseFacts {
  import opened Results
  import opened Nodes
  import opened Errors
  import opened Scanner
  import opened Engine

  // ---------------------------------------------------------------------
  // Failures
  // ---------------------------------------------------------------------

  /** A failed pass stays failed, with the same error, over one more line. */
  lemma ErrStep(ls: seq<Result<Lexed, Error>>, k: nat)
    requires k < |ls| && Run(ls, k).Err?
    ensures Run(ls, k + 1) == Run(ls, k)
  {
  }

  /** The first failure ends the pass: no later line changes the outcome. */
  lemma FailureIsFinal(ls: seq<Result<Lexed, Error>>, n: nat, m: nat)
    requires n <= m <= |ls| && Run(ls, n).Err?
    ensures Run(ls, m) == Run(ls, n)
  {
    var k := n;
    while k < m
      invariant n <= k <= m
      invariant Run(ls, k) == Run(ls, n)
    {
      ErrStep(ls, k);
      k := k + 1;
    }
  }

  /** A line the scanner rejects ends the pass with the scanner's error,
      provided no earlier line failed. */
  lemma ScanErrorIsFinal(ls: seq<Result<Lexed, Error>>, k: nat)
    requires k < |ls| && ls[k].Err? && Run(ls, k).Ok?
    ensures Run(ls, |ls|) == Err(ls[k].error)
  {
    ScanErrorStep(ls, k);
    FailureIsFinal(ls, k + 1, |ls|);
  }

  /** A line the scanner rejects fails a pass that had not failed yet. */
  lemma ScanErrorStep(ls: seq<Result<Lexed, Error>>, k: nat)
    requires k < |ls| && ls[k].Err? && Run(ls, k).Ok?
    ensures Run(ls, k + 1) == Err(ls[k].error)
  {
  }

  /** A line whose leading whitespace holds anything but spaces (a tab, say)
      is rejected with its own line number, even when it is otherwise blank. */
  lemma NonSpaceIndentRejected(lines: seq<string>, k: nat)
    requires k < |lines| && HasNonSpaceIndent(TrimNewlines(lines[k]))
    ensures LexAll(lines)[k] == Err(LineError(k + 1, IndentWithSpacesOnly))
  {
  }

  // ---------------------------------------------------------------------
  // Line numbers label errors and nothing else
  // ---------------------------------------------------------------------

  /** An error with its line number, if any, blanked out. */
  function Unnumbered(err: Error): Error {
    if err.LineError? then LineError(0, err.reason) else err
  }

  /** Two scanner verdicts that agree except possibly in an error's line number. */
  predicate SameShape(x: Result<Lexed, Error>, y: Result<Lexed, Error>) {
    && (x.Ok? <==> y.Ok?)
    && (x.Ok? ==> x == y)
    && (x.Err? ==> Unnumbered(x.error) == Unnumbered(y.error))
  }

  /** Two outcomes of a pass that agree except possibly in an error's line number. */
  predicate SameOutcome(a: Result<seq<Frame>, Error>, b: Result<seq<Frame>, Error>) {
    && (a.Ok? <==> b.Ok?)
    && (a.Ok? ==> a == b)
    && (a.Err? ==> Unnumbered(a.error) == Unnumbered(b.error))
  }

  /** A line scans the same way whatever its number. */
  lemma LexIgnoresLineNumber(line: string, a: nat, b: nat)
    ensures SameShape(Lex(line, a), Lex(line, b))
  {
  }

  /** Lines that scan alike drive the engine alike, whatever their numbers. */
  lemma FeedIgnoresLineNumber(fs: seq<Frame>, x: Result<Lexed, Error>, y: Result<Lexed, Error>, a: nat, b: nat)
    requires ValidStack(fs) && SameShape(x, y)
    ensures SameOutcome(Feed(fs, x, a), Feed(fs, y, b))
  {
  }

  /** One more line of the same shape on both sides keeps two passes alike. */
  lemma AlikeStep(xs: seq<Result<Lexed, Error>>, ys: seq<Result<Lexed, Error>>, a: nat, b: nat)
    requires a < |xs| && b < |ys| && SameShape(xs[a], ys[b])
    requires SameOutcome(Run(xs, a), Run(ys, b))
    ensures SameOutcome(Run(xs, a + 1), Run(ys, b + 1))
  {
    if Run(xs, a).Ok? {
      FeedIgnoresLineNumber(Run(xs, a).value, xs[a], ys[b], a + 1, b + 1);
    }
  }

  /** A blank line leaves the pass as it was. */
  lemma BlankStep(ls: seq<Result<Lexed, Error>>, p: nat)
    requires p < |ls| && ls[p] == Ok(Blank)
    ensures SameOutcome(Run(ls, p + 1), Run(ls, p))
  {
  }

  /** A blank line on one side, then lines of the same shape on both sides,
      keep two passes alike. */
  lemma SkipBlankStep(xs: seq<Result<Lexed, Error>>, ys: seq<Result<Lexed, Error>>, a: nat, b: nat)
    requires a + 1 < |xs| && b < |ys| && xs[a] == Ok(Blank) && SameShape(xs[a + 1], ys[b])
    requires SameOutcome(Run(xs, a), Run(ys, b))
    ensures SameOutcome(Run(xs, a + 2), Run(ys, b + 1))
  {
    BlankStep(xs, a);
    AlikeStep(xs, ys, a + 1, b);
  }

  // ---------------------------------------------------------------------
  // The root of the document
  // ---------------------------------------------------------------------

  /** The first `n` scanned lines are all blank or comments. */
  predicate AllBlank(ls: seq<Result<Lexed, Error>>, n: nat)
    requires n <= |ls|
  {
    n == 0 || (ls[n - 1] == Ok(Blank) && AllBlank(ls, n - 1))
  }

  /** One more line leaves the stack empty exactly when the line is blank
      and the stack was empty before it. */
  lemma EmptyStep(ls: seq<Result<Lexed, Error>>, k: nat)
    requires k < |ls|
    ensures Run(ls, k + 1) == Ok([]) <==> Run(ls, k) == Ok([]) && ls[k] == Ok(Blank)
  {
  }

  /** The stack stays empty exactly as long as every line is blank. */
  lemma EmptyIffAllBlank(ls: seq<Result<Lexed, Error>>, n: nat)
    requires n <= |ls|
    ensures Run(ls, n) == Ok([]) <==> AllBlank(ls, n)
  {
    var k := 0;
    while k < n
      invariant k <= n
      invariant Run(ls, k) == Ok([]) <==> AllBlank(ls, k)
    {
      EmptyStep(ls, k);
      k := k + 1;
    }
  }

  /** The recursive and the quantified reading of "all blank" agree. */
  lemma AllBlankIff(ls: seq<Result<Lexed, Error>>, n: nat)
    requires n <= |ls|
    ensures AllBlank(ls, n) <==> forall i :: 0 <= i < n ==> ls[i] == Ok(Blank)
  {
    var k := 0;
    while k < n
      invariant k <= n
      invariant AllBlank(ls, k) <==> forall i :: 0 <= i < k ==> ls[i] == Ok(Blank)
    {
      k := k + 1;
    }
  }

  /** A file fails with no line number exactly when every line is blank or
      a comment (the final `stack[0]` on an empty stack). */
  lemma NoEntriesIffAllBlank(lines: seq<string>)
    ensures Parse(lines) == Err(NoEntries) <==> forall i :: 0 <= i < |lines| ==> LexAll(lines)[i] == Ok(Blank)
  {
    EmptyIffAllBlank(LexAll(lines), |lines|);
    AllBlankIff(LexAll(lines), |lines|);
  }

  /** The pass has failed, or its bottom frame has this indent and kind. */
  predicate RootIs(r: Result<seq<Frame>, Error>, indent: nat, kind: Kind) {
    r.Ok? ==> |r.value| > 0 && r.value[0].indent == indent && BodyKind(r.value[0].body) == kind
  }

  /** Once the stack is non-empty, one more line keeps its bottom frame's
      indent and kind. */
  lemma RootStep(ls: seq<Result<Lexed, Error>>, k: nat, indent: nat, kind: Kind)
    requires k < |ls| && RootIs(Run(ls, k), indent, kind)
    ensures RootIs(Run(ls, k + 1), indent, kind)
  {
  }

  /** An entry on an empty stack creates the bottom frame. */
  lemma FirstEntryStep(ls: seq<Result<Lexed, Error>>, k: nat, indent: nat, e: Entry)
    requires k < |ls| && ls[k] == Ok(Content(indent, e)) && Run(ls, k) == Ok([])
    ensures Run(ls, k + 1) == Ok([Frame(indent, Start(e))])
    ensures RootIs(Run(ls, k + 1), indent, EntryKind(e))
  {
  }

  /** After the first entry, the bottom frame is the one that entry created:
      its indent and its kind never change again. */
  lemma {:induction false} RootFromFirstEntry(ls: seq<Result<Lexed, Error>>, n: nat, k: nat, indent: nat, e: Entry)
    requires k < n <= |ls| && ls[k] == Ok(Content(indent, e)) && AllBlank(ls, k)
    ensures RootIs(Run(ls, n), indent, EntryKind(e))
  {
    EmptyIffAllBlank(ls, k);
    assert Run(ls, k) == Ok([]);
    FirstEntryStep(ls, k, indent, e);
    RootKept(ls, k + 1, n, indent, EntryKind(e));
  }

  /** A root, once there, stays. */
  lemma RootKept(ls: seq<Result<Lexed, Error>>, m0: nat, n: nat, indent: nat, kind: Kind)
    requires m0 <= n <= |ls| && RootIs(Run(ls, m0), indent, kind)
    ensures RootIs(Run(ls, n), indent, kind)
  {
    var m := m0;
    while m < n
      invariant m0 <= m <= n
      invariant RootIs(Run(ls, m), indent, kind)
    {
      RootStep(ls, m, indent, kind);
      m := m + 1;
    }
  }

  /** The document is a list when the file's first entry is a `- item` and a
      dictionary when it is a `key: value`. */
  lemma DocumentKindFromFirstEntry(lines: seq<string>, k: nat, indent: nat, e: Entry)
    requires k < |lines|
    ensures FirstEntryAt(lines, k, indent, e) && Parse(lines).Ok? ==>
              && (Parse(lines).value.Sequence? <==> e.Item?)
              && (Parse(lines).value.Mapping? <==> e.Pair?)
  {
    if FirstEntryAt(lines, k, indent, e) {
      var run := Run(LexAll(lines), |lines|);
      RootFromFirstEntry(LexAll(lines), |lines|, k, indent, e);
      ParseClosesRun(lines);
      CloseKind(run, indent, EntryKind(e));
    }
  }

  /** A parsed document is the final stack, closed. */
  lemma ParseClosesRun(lines: seq<string>)
    ensures Parse(lines).Ok? ==>
              && Run(LexAll(lines), |lines|).Ok? && |Run(LexAll(lines), |lines|).value| > 0
              && Parse(lines).value == CloseAll(Run(LexAll(lines), |lines|).value)
  {
  }

  /** Closing a stack gives a node of its bottom frame's kind. */
  lemma CloseKind(run: Result<seq<Frame>, Error>, indent: nat, kind: Kind)
    requires RootIs(run, indent, kind) && (run.Ok? ==> ValidStack(run.value))
    ensures run.Ok? ==>
              && (CloseAll(run.value).Sequence? <==> kind == SeqKind)
              && (CloseAll(run.value).Mapping? <==> kind == MapKind)
  {
  }

  /** Line `k` holds the file's first entry, `e` at `indent`. */
  predicate FirstEntryAt(lines: seq<string>, k: nat, indent: nat, e: Entry)
    requires k < |lines|
  {
    LexAll(lines)[k] == Ok(Content(indent, e)) && AllBlank(LexAll(lines), k)
  }

  // ---------------------------------------------------------------------
  // Flat documents
  // ---------------------------------------------------------------------

  /** The items of a flat list: the strings `vs`, in order, as scalars. */
  function Scalars(vs: seq<string>): (r: seq<Node>)
    ensures |r| == |vs| && forall i :: 0 <= i < |vs| ==> r[i] == Scalar(vs[i])
  {
    if |vs| == 0 then [] else Scalars(vs[..|vs| - 1]) + [Scalar(vs[|vs| - 1])]
  }

  /** The entries of a flat dictionary: key `ks[i]` with the scalar `vs[i]`, in order. */
  function ScalarPairs(ks: seq<string>, vs: seq<string>): (r: seq<(string, Node)>)
    requires |ks| == |vs|
    ensures |r| == |ks| && forall i :: 0 <= i < |ks| ==> r[i] == (ks[i], Scalar(vs[i]))
  {
    if |ks| == 0 then []
    else ScalarPairs(ks[..|ks| - 1], vs[..|vs| - 1]) + [(ks[|ks| - 1], Scalar(vs[|vs| - 1]))]
  }

  /** No key is given twice. */
  predicate Distinct(ks: seq<string>) {
    forall i, j :: 0 <= i < j < |ks| ==> ks[i] != ks[j]
  }

  /** Every scanned line is the list item `vs[i]` at the same `indent`. */
  predicate FlatItems(ls: seq<Result<Lexed, Error>>, indent: nat, vs: seq<string>) {
    |ls| == |vs| && forall i :: 0 <= i < |ls| ==> ls[i] == Ok(Content(indent, Item(vs[i])))
  }

  /** Every scanned line is the pair `ks[i]: vs[i]` at the same `indent`. */
  predicate FlatPairs(ls: seq<Result<Lexed, Error>>, indent: nat, ks: seq<string>, vs: seq<string>) {
    && |ls| == |ks| == |vs|
    && forall i :: 0 <= i < |ls| ==> ls[i] == Ok(Content(indent, Pair(ks[i], vs[i])))
  }

  /** After `j` lines of a flat list, the stack is one frame holding the
      first `j` items. */
  predicate ItemsSoFar(ls: seq<Result<Lexed, Error>>, j: nat, indent: nat, vs: seq<string>)
    requires j <= |ls| && j <= |vs|
  {
    Run(ls, j) == Ok([Frame(indent, Items(Scalars(vs[..j])))])
  }

  /** After `j` lines of a flat mapping, the stack is one frame holding the
      first `j` pairs. */
  predicate PairsSoFar(ls: seq<Result<Lexed, Error>>, j: nat, indent: nat, ks: seq<string>, vs: seq<string>)
    requires j <= |ls| && j <= |ks| == |vs|
  {
    Run(ls, j) == Ok([Frame(indent, Entries(ScalarPairs(ks[..j], vs[..j])))])
  }

  /** The first item creates the list. */
  lemma FlatItemsFirst(ls: seq<Result<Lexed, Error>>, indent: nat, vs: seq<string>)
    requires FlatItems(ls, indent, vs) && |ls| > 0
    ensures ItemsSoFar(ls, 1, indent, vs)
  {
    assert Run(ls, 0) == Ok([]);
    assert Scalars(vs[..1]) == [Scalar(vs[0])];
  }

  /** One more item at the same indent is appended to the list. */
  lemma FlatItemsStep(ls: seq<Result<Lexed, Error>>, j: nat, indent: nat, vs: seq<string>)
    requires FlatItems(ls, indent, vs) && 1 <= j < |ls| && ItemsSoFar(ls, j, indent, vs)
    ensures ItemsSoFar(ls, j + 1, indent, vs)
  {
    var fs := [Frame(indent, Items(Scalars(vs[..j])))];
    assert Run(ls, j + 1) == Feed(fs, ls[j], j + 1);
    var body := Items(Scalars(vs[..j]) + [Scalar(vs[j])]);
    assert Insert(fs[0].body, Item(vs[j])) == Ok(body);
    assert AddAtLevel(fs, Item(vs[j])) == Ok(fs[..0] + [Frame(indent, body)]);
    assert fs[..0] + [Frame(indent, body)] == [Frame(indent, body)];
    assert vs[..j + 1][..j] == vs[..j];
  }

  /** The first pair creates the dictionary. */
  lemma FlatPairsFirst(ls: seq<Result<Lexed, Error>>, indent: nat, ks: seq<string>, vs: seq<string>)
    requires FlatPairs(ls, indent, ks, vs) && |ls| > 0
    ensures PairsSoFar(ls, 1, indent, ks, vs)
  {
    assert Run(ls, 0) == Ok([]);
    assert ScalarPairs(ks[..1], vs[..1]) == [(ks[0], Scalar(vs[0]))];
  }

  /** One more pair at the same indent, with a new key, is appended to the
      dictionary. */
  lemma FlatPairsStep(ls: seq<Result<Lexed, Error>>, j: nat, indent: nat, ks: seq<string>, vs: seq<string>)
    requires FlatPairs(ls, indent, ks, vs) && Distinct(ks) && 1 <= j < |ls| && PairsSoFar(ls, j, indent, ks, vs)
    ensures PairsSoFar(ls, j + 1, indent, ks, vs)
  {
    var es := ScalarPairs(ks[..j], vs[..j]);
    var fs := [Frame(indent, Entries(es))];
    assert Run(ls, j + 1) == Feed(fs, ls[j], j + 1);
    assert !HasKey(es, ks[j]) by {
      forall i | 0 <= i < |es| ensures es[i].0 != ks[j] {
        assert es[i].0 == ks[i];
      }
    }
    var body := Entries(es + [(ks[j], Scalar(vs[j]))]);
    assert Insert(fs[0].body, Pair(ks[j], vs[j])) == Ok(body);
    assert AddAtLevel(fs, Pair(ks[j], vs[j])) == Ok(fs[..0] + [Frame(indent, body)]);
    assert fs[..0] + [Frame(indent, body)] == [Frame(indent, body)];
    assert ks[..j + 1][..j] == ks[..j] && vs[..j + 1][..j] == vs[..j];
  }

  /** A flat list, line after line, builds the list of its first `j` items. */
  lemma {:induction false} FlatItemsRun(ls: seq<Result<Lexed, Error>>, j: nat, indent: nat, vs: seq<string>)
    requires FlatItems(ls, indent, vs) && 1 <= j <= |ls|
    ensures ItemsSoFar(ls, j, indent, vs)
    decreases j
  {
    if j == 1 {
      FlatItemsFirst(ls, indent, vs);
    } else {
      FlatItemsRun(ls, j - 1, indent, vs);
      FlatItemsStep(ls, j - 1, indent, vs);
    }
  }

  /** A flat mapping with distinct keys, line after line, builds the
      dictionary of its first `j` pairs. */
  lemma {:induction false} FlatPairsRun(ls: seq<Result<Lexed, Error>>, j: nat, indent: nat, ks: seq<string>, vs: seq<string>)
    requires FlatPairs(ls, indent, ks, vs) && Distinct(ks) && 1 <= j <= |ls|
    ensures PairsSoFar(ls, j, indent, ks, vs)
    decreases j
  {
    if j == 1 {
      FlatPairsFirst(ls, indent, ks, vs);
    } else {
      FlatPairsRun(ls, j - 1, indent, ks, vs);
      FlatPairsStep(ls, j - 1, indent, ks, vs);
    }
  }

  /** A file of `- item` lines, all at one indent, parses to the list of
      those items in file order. */
  lemma FlatSequence(lines: seq<string>, indent: nat, vs: seq<string>)
    requires |lines| == |vs| > 0
    requires forall i :: 0 <= i < |lines| ==> LexAll(lines)[i] == Ok(Content(indent, Item(vs[i])))
    ensures Parse(lines) == Ok(Sequence(Scalars(vs)))
  {
    var ls := LexAll(lines);
    assert FlatItems(ls, indent, vs);
    FlatItemsRun(ls, |ls|, indent, vs);
    assert vs[..|vs|] == vs;
    ParseOneFrame(lines, Frame(indent, Items(Scalars(vs))));
  }

  /** A file of `key: value` lines with distinct keys, all at one indent,
      parses to the dictionary of those pairs in file order. */
  lemma FlatMapping(lines: seq<string>, indent: nat, ks: seq<string>, vs: seq<string>)
    requires |lines| == |ks| == |vs| > 0 && Distinct(ks)
    requires forall i :: 0 <= i < |lines| ==> LexAll(lines)[i] == Ok(Content(indent, Pair(ks[i], vs[i])))
    ensures Parse(lines) == Ok(Mapping(ScalarPairs(ks, vs)))
  {
    var ls := LexAll(lines);
    assert FlatPairs(ls, indent, ks, vs);
    FlatPairsRun(ls, |ls|, indent, ks, vs);
    assert ks[..|ks|] == ks && vs[..|vs|] == vs;
    ParseOneFrame(lines, Frame(indent, Entries(ScalarPairs(ks, vs))));
  }

  /** A pass that ends with a single open frame yields that frame's container. */
  lemma ParseOneFrame(lines: seq<string>, f: Frame)
    requires Run(LexAll(lines), |lines|) == Ok([f])
    ensures Parse(lines) == Ok(ToNode(f.body))
  {
  }
}
