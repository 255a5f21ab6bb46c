/** The end-to-end agreement between the functional engine and the model of
    the source's reference-sharing parser, by induction over the lines. */
module Agreement {
  import opened Results
  import opened Nodes
  import opened Errors
  import opened Scanner
  import opened Engine
  import opened Aliasing
  import opened Equivalence

  /** The agreement holds after every prefix of the scanned input. */
  lemma {:induction false} RunCorr(ls: seq<Result<Lexed, Error>>, n: nat)
    requires n <= |ls|
    ensures Agrees(Run(ls, n), PyRun(ls, n))
  {
    var k := 0;
    while k < n
      invariant k <= n
      invariant Agrees(Run(ls, k), PyRun(ls, k))
    {
      RunCorrNext(ls, k);
      k := k + 1;
    }
  }

  /** One more line keeps the agreement. */
  lemma RunCorrNext(ls: seq<Result<Lexed, Error>>, k: nat)
    requires k < |ls|
    requires Agrees(Run(ls, k), PyRun(ls, k))
    ensures Agrees(Run(ls, k + 1), PyRun(ls, k + 1))
  {
    var r, pr := Run(ls, k), PyRun(ls, k);
    if r.Ok? {
      FeedCorr(r.value, pr.value, ls[k], k + 1);
    }
  }

  /** The source's reference-sharing parser and the functional engine agree
      on every input: the same document, or the same error, and the program
      never hits a missing key or index on its containers. */
  lemma {:induction false} ParseMatchesAliasing(lines: seq<string>)
    ensures Parse(lines).Ok? ==> PyParse(lines) == Ok(Parse(lines).value)
    ensures Parse(lines).Err? ==> PyParse(lines) == Err(Failed(Parse(lines).error))
  {
    var ls := LexAll(lines);
    RunCorr(ls, |lines|);
    if Run(ls, |lines|).Ok? && |Run(ls, |lines|).value| > 0 {
      CloseAllCorr(Run(ls, |lines|).value, PyRun(ls, |lines|).value);
    }
  }

  /** The source's containers are never indexed where nothing is: the
      program's parse never ends in a `KeyError` or `IndexError`, and what it
      returns is a list or a dictionary with unique keys. */
  lemma NoLookupFailure(lines: seq<string>)
    ensures PyParse(lines) != Err(LookupFailed)
    ensures PyParse(lines).Ok? ==> WellFormed(PyParse(lines).value)
  {
    ParseMatchesAliasing(lines);
  }
}
