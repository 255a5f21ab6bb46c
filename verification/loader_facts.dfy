/** Properties of the test loader that relate several calls: the `-t`
    list's splitting and joining, the dictionary's last-wins lookup, and
    how the two group filters split and compose. */
module LoaderFacts {
  import opened Results
  import opened Nodes
  import opened Scanner
  import opened Loader

  // ---------------------------------------------------------------------
  // Splitting the `-t` list
  // ---------------------------------------------------------------------

  /** Joining the pieces of a split gives back the original string. */
  lemma {:induction false} JoinSplit(s: string, c: char)
    ensures Join(Split(s, c), c) == s
    decreases |s|
  {
    if c in s {
      var p := IndexOf(s, c);
      var head, rest := s[..p], s[p + 1..];
      assert s == head + [c] + rest;
      SplitAtFirst(head, rest, c);
      JoinSplit(rest, c);
      var parts := [head] + Split(rest, c);
      assert parts[1..] == Split(rest, c);
    }
  }

  /** Splitting a join of separator-free pieces gives back the pieces. */
  lemma {:induction false} SplitJoin(parts: seq<string>, c: char)
    requires |parts| >= 1
    requires forall i :: 0 <= i < |parts| ==> c !in parts[i]
    ensures Split(Join(parts, c), c) == parts
  {
    if |parts| > 1 {
      var rest := Join(parts[1..], c);
      SplitJoin(parts[1..], c);
      SplitAtFirst(parts[0], rest, c);
      assert parts == [parts[0]] + parts[1..];
    }
  }

  /** A string that starts with a separator-free piece and a separator is
      split right after that piece. */
  lemma SplitAtFirst(head: string, rest: string, c: char)
    requires c !in head
    ensures Split(head + [c] + rest, c) == [head] + Split(rest, c)
  {
    var s := head + [c] + rest;
    assert s[|head|] == c;
    var p := IndexOf(s, c);
    assert s[..|head|] == head;
    assert p == |head|;
    assert s[p + 1..] == rest;
  }

  /** A list of several names is split at every comma, in order. */
  lemma SplitNames(a: string, b: string)
    requires ',' !in a && ',' !in b
    ensures Split(a + "," + b, ',') == [a, b]
  {
    SplitJoin([a, b], ',');
  }

  // ---------------------------------------------------------------------
  // `name_to_test`: the last test of a name wins
  // ---------------------------------------------------------------------

  /** A test appended after the others is what its name finds. */
  lemma LastWins(ts: seq<Test>, t: Test)
    ensures LastNamed(ts + [t], t.name) == Some(t)
  {
  }

  /** Appending a test of another name leaves every lookup as it was. */
  lemma OtherNameUnchanged(ts: seq<Test>, t: Test, n: string)
    requires t.name != n
    ensures LastNamed(ts + [t], n) == LastNamed(ts, n)
  {
    assert (ts + [t])[..|ts|] == ts;
  }

  /** Two tests of the same name both load, and selecting that name picks
      the second one. */
  lemma DuplicateNameSelectsLast(a: Test, b: Test)
    requires a.name == b.name
    ensures SelectNames([a, b], [a.name]) == Ok([b])
  {
    assert [a, b] == [a] + [b];
    LastWins([a], b);
    assert LastNamed([a, b], a.name) == Some(b);
    assert [a.name][1..] == [];
    assert SelectNames([a, b], [a.name][1..]) == Ok([]);
    assert [b] + [] == [b];
  }

  // ---------------------------------------------------------------------
  // Loading: duplicate names are not rejected
  // ---------------------------------------------------------------------

  /** The duplicate-name guard compares a name with test records, so it
      never fires: a valid entry listed twice loads as two equal tests. */
  lemma DuplicateNamesAccepted(entry: Node, isWord: char -> bool)
    requires ValidEntry(entry, isWord)
    ensures LoadEntries([entry, entry], isWord).Ok?
    ensures var ts := LoadEntries([entry, entry], isWord).value;
            |ts| == 2 && ts[0] == ts[1] && EntryToTest(entry, isWord) == Ok(ts[0])
  {
    assert FirstInvalid([entry, entry], isWord) == 2 by {
      assert [entry, entry][1..] == [entry];
      assert [entry][1..] == [];
    }
  }

  // ---------------------------------------------------------------------
  // Filters
  // ---------------------------------------------------------------------

  /** Filtering a concatenation filters each part. */
  lemma {:induction false} FilterConcat(a: seq<Test>, b: seq<Test>, keep: Test -> bool)
    ensures Filter(a + b, keep) == Filter(a, keep) + Filter(b, keep)
    decreases |b|
  {
    if b == [] {
      assert a + b == a;
    } else {
      var b' := b[..|b| - 1];
      assert (a + b)[..|a + b| - 1] == a + b';
      FilterConcat(a, b', keep);
    }
  }

  /** A test and its complement split a list without losing or adding any
      element. */
  lemma {:induction false} FilterPartition(ts: seq<Test>, keep: Test -> bool, drop: Test -> bool)
    requires forall t :: drop(t) == !keep(t)
    ensures multiset(Filter(ts, keep)) + multiset(Filter(ts, drop)) == multiset(ts)
    ensures |Filter(ts, keep)| + |Filter(ts, drop)| == |ts|
    decreases |ts|
  {
    if ts != [] {
      var init, last := ts[..|ts| - 1], ts[|ts| - 1];
      FilterPartition(init, keep, drop);
      assert multiset(ts) == multiset(init) + multiset{last} by {
        assert ts == init + [last];
      }
      if keep(last) {
        assert Filter(ts, keep) == Filter(init, keep) + [last];
        assert Filter(ts, drop) == Filter(init, drop);
      } else {
        assert Filter(ts, keep) == Filter(init, keep);
        assert Filter(ts, drop) == Filter(init, drop) + [last];
      }
    }
  }

  /** A filter whose test every element passes keeps the whole list. */
  lemma {:induction false} FilterAll(ts: seq<Test>, keep: Test -> bool)
    requires forall t :: t in ts ==> keep(t)
    ensures Filter(ts, keep) == ts
    decreases |ts|
  {
    if ts != [] {
      var init := ts[..|ts| - 1];
      assert forall t :: t in init ==> t in ts;
      FilterAll(init, keep);
      assert ts == init + [ts[|ts| - 1]];
    }
  }

  /** A filter whose test no element passes keeps nothing. */
  lemma {:induction false} FilterNone(ts: seq<Test>, keep: Test -> bool)
    requires forall t :: t in ts ==> !keep(t)
    ensures Filter(ts, keep) == []
    decreases |ts|
  {
    if ts != [] {
      var init := ts[..|ts| - 1];
      assert forall t :: t in init ==> t in ts;
      FilterNone(init, keep);
    }
  }

  /** `--exclude-group` and `--only-group` with the same group split the
      tests between them: each test lands in exactly one of the two. */
  lemma ExcludeOnlyPartition(ts: seq<Test>, g: string)
    ensures multiset(ExcludeGroup(ts, g)) + multiset(OnlyGroup(ts, g)) == multiset(ts)
    ensures |ExcludeGroup(ts, g)| + |OnlyGroup(ts, g)| == |ts|
  {
    FilterPartition(ts, t => !InGroup(t, g), t => InGroup(t, g));
    assert multiset(ExcludeGroup(ts, g)) == multiset(Filter(ts, t => !InGroup(t, g)));
  }

  /** Excluding a group a second time changes nothing. */
  lemma ExcludeGroupIdempotent(ts: seq<Test>, g: string)
    ensures ExcludeGroup(ExcludeGroup(ts, g), g) == ExcludeGroup(ts, g)
  {
    FilterAll(ExcludeGroup(ts, g), t => !InGroup(t, g));
  }

  /** Restricting to a group a second time changes nothing. */
  lemma OnlyGroupIdempotent(ts: seq<Test>, g: string)
    ensures OnlyGroup(OnlyGroup(ts, g), g) == OnlyGroup(ts, g)
  {
    FilterAll(OnlyGroup(ts, g), t => InGroup(t, g));
  }

  /** Excluding a group and then restricting to it leaves no test: with
      both options naming the same group, the source runs nothing. */
  lemma ExcludeThenOnlyIsEmpty(ts: seq<Test>, g: string)
    requires g != ""
    ensures Activate(ts, Options("", g, g)) == Ok([])
  {
    FilterNone(ExcludeGroup(ts, g), t => InGroup(t, g));
  }

  /** Without `-t`, the active tests are the tests of the file filtered by
      the group options, and they keep the file's order. */
  lemma ActivateWithoutSubset(ts: seq<Test>, ex: string, only: string)
    requires ex != "" && only != ""
    ensures Activate(ts, Options("", ex, only)) == Ok(Filter(ts, t => !InGroup(t, ex) && InGroup(t, only)))
  {
    var e := ExcludeGroup(ts, ex);
    FilterCompose(ts, t => !InGroup(t, ex), t => InGroup(t, only), t => !InGroup(t, ex) && InGroup(t, only));
  }

  /** Two filters in turn are the filter by both tests. */
  lemma {:induction false} FilterCompose(ts: seq<Test>, p: Test -> bool, q: Test -> bool, both: Test -> bool)
    requires forall t :: both(t) == (p(t) && q(t))
    ensures Filter(Filter(ts, p), q) == Filter(ts, both)
    decreases |ts|
  {
    if ts != [] {
      var init := ts[..|ts| - 1];
      var last := ts[|ts| - 1];
      FilterCompose(init, p, q, both);
      if p(last) {
        var f := Filter(init, p) + [last];
        assert f[..|f| - 1] == Filter(init, p);
      }
    }
  }

  /** Two filters whose tests agree on every test keep the same tests. */
  lemma {:induction false} FilterSame(ts: seq<Test>, p: Test -> bool, q: Test -> bool)
    requires forall t :: p(t) == q(t)
    ensures Filter(ts, p) == Filter(ts, q)
    decreases |ts|
  {
    if ts != [] {
      FilterSame(ts[..|ts| - 1], p, q);
    }
  }

  /** The group options applied one after the other are the single filter
      `Passes`. */
  lemma GroupOptionsArePasses(chosen: seq<Test>, opts: Options)
    ensures var afterExclude := if opts.excludeGroup != "" then ExcludeGroup(chosen, opts.excludeGroup) else chosen;
            var afterOnly := if opts.onlyGroup != "" then OnlyGroup(afterExclude, opts.onlyGroup) else afterExclude;
            afterOnly == Filter(chosen, t => Passes(t, opts))
  {
    var ex, only := opts.excludeGroup, opts.onlyGroup;
    var passes := t => Passes(t, opts);
    if ex == "" && only == "" {
      FilterAll(chosen, passes);
    } else if only == "" {
      FilterSame(chosen, t => !InGroup(t, ex), passes);
    } else if ex == "" {
      FilterSame(chosen, t => InGroup(t, only), passes);
    } else {
      FilterCompose(chosen, t => !InGroup(t, ex), t => InGroup(t, only), passes);
    }
  }

  /** What `Activate` computes, case by case: without `-t`, the tests of the
      file that pass the group options; with `-t` over no tests, the unbound
      loop variable; otherwise the selected tests that pass the group
      options, or the selection's error. */
  lemma ActivateExact(ts: seq<Test>, opts: Options)
    ensures opts.testSubset == "" ==> Activate(ts, opts) == Ok(Filter(ts, t => Passes(t, opts)))
    ensures opts.testSubset != "" && ts == [] ==> Activate(ts, opts) == Err(NoTestBound)
    ensures opts.testSubset != "" && ts != [] ==>
              var sel := SelectNames(ts, Split(opts.testSubset, ','));
              && (Activate(ts, opts).Ok? <==> sel.Ok?)
              && (sel.Err? ==> Activate(ts, opts) == Err(sel.error))
              && (sel.Ok? ==> Activate(ts, opts) == Ok(Filter(sel.value, t => Passes(t, opts))))
  {
    if opts.testSubset == "" {
      GroupOptionsArePasses(ts, opts);
    } else if ts != [] {
      var sel := SelectNames(ts, Split(opts.testSubset, ','));
      if sel.Ok? {
        GroupOptionsArePasses(sel.value, opts);
      }
    }
  }
}
