/** `_get_tests_from_file`: the parsed document is checked entry by entry
    into test records, then the active tests are chosen by name and by group.
    Python's `\w` (a Unicode-aware character class) is the parameter
    `isWord`. */
module Loader {
  import opened Results
  import opened Nodes
  import opened Errors
  import opened Scanner
  import opened Engine

  /** The source's `Test` record. `group` is absent unless the entry has one. */
  datatype Test = Test(name: string, command: Node, expected: Node, group: Option<Node>)

  /** Why a parsed document was rejected as a list of tests. */
  datatype LoadError =
    | NotASequence                // the top level is not a list
    | EntryNotMapping             // an entry is not a dictionary
    | MissingExpected             // `expected` absent or empty
    | MissingCommand              // `command` absent
    | MissingName                 // `name` absent
    | NameNotString               // `re.match` on a list or dictionary raises `TypeError`
    | IllegalName(name: string)   // the name does not match `^\w+$`
    | EmptyGroup(name: string)    // `group` present but empty
    | NoTestBound                 // a `-t` selection over no tests reads the unbound loop variable
    | UnknownTest(name: string)   // a `-t` name that no test has (`KeyError`)

  /** Everything that can stop `_get_tests_from_file`. */
  datatype Failure = ParseFailed(error: Error) | LoadFailed(reason: LoadError)

  /** The command-line options that choose the active tests; an absent
      option is the empty string, which Python treats as false as well. */
  datatype Options = Options(testSubset: string, excludeGroup: string, onlyGroup: string)

  // ---------------------------------------------------------------------
  // Test names
  // ---------------------------------------------------------------------

  predicate AllWord(s: string, isWord: char -> bool) {
    forall i :: 0 <= i < |s| ==> isWord(s[i])
  }

  /** `re.match(r'^\w+$', s)`: one or more word characters up to the end of
      the string, where `$` also matches just before a final newline. */
  predicate NameMatches(s: string, isWord: char -> bool) {
    || (|s| > 0 && AllWord(s, isWord))
    || (|s| > 1 && s[|s| - 1] == '\n' && AllWord(s[..|s| - 1], isWord))
  }

  /** The length of the longest prefix of word characters. */
  function WordPrefix(s: string, isWord: char -> bool): (n: nat)
    ensures n <= |s| && AllWord(s[..n], isWord)
    ensures n < |s| ==> !isWord(s[n])
  {
    if |s| == 0 || !isWord(s[0]) then 0
    else
      var m := WordPrefix(s[1..], isWord);
      assert s[..m + 1] == [s[0]] + s[1..][..m];
      m + 1
  }

  /** The regular-expression engine's way: take the greedy run of word
      characters, then require the end of the string or a final newline. */
  function MatchName(s: string, isWord: char -> bool): (b: bool)
    ensures b <==> NameMatches(s, isWord)
  {
    var n := WordPrefix(s, isWord);
    if n == 0 then
      assert |s| > 1 ==> s[..|s| - 1][0] == s[0];
      false
    else if n == |s| then
      assert s[..n] == s;
      true
    else
      assert n < |s| - 1 ==> s[..|s| - 1][n] == s[n];
      assert n == |s| - 1 ==> s[..|s| - 1] == s[..n];
      n == |s| - 1 && s[n] == '\n'
  }

  // ---------------------------------------------------------------------
  // Entries
  // ---------------------------------------------------------------------

  /** The checks of the entry loop, each one assuming the ones before it:
      the entry is a dictionary with a non-empty `expected`, ... */
  predicate HasExpected(entry: Node) {
    && entry.Mapping?
    && HasKey(entry.entries, "expected")
    && Truthy(Lookup(entry.entries, "expected").value)
  }

  /** ... then a `command`, ... */
  predicate HasCommand(entry: Node) {
    HasExpected(entry) && HasKey(entry.entries, "command")
  }

  /** ... then a `name`, ... */
  predicate HasName(entry: Node) {
    HasCommand(entry) && HasKey(entry.entries, "name")
  }

  /** ... which is a string, ... */
  predicate HasStringName(entry: Node) {
    HasName(entry) && Lookup(entry.entries, "name").value.Scalar?
  }

  /** The entry's name, once it is known to be a string. */
  function NameOf(entry: Node): string
    requires HasStringName(entry)
  {
    Lookup(entry.entries, "name").value.text
  }

  /** ... made of word characters, ... */
  predicate HasLegalName(entry: Node, isWord: char -> bool) {
    HasStringName(entry) && NameMatches(NameOf(entry), isWord)
  }

  /** ... and whose `group`, if present, is not empty. */
  predicate ValidEntry(entry: Node, isWord: char -> bool) {
    && HasLegalName(entry, isWord)
    && (HasKey(entry.entries, "group") ==> Truthy(Lookup(entry.entries, "group").value))
  }

  /** One test entry, checked in the order of the source: each error is
      reported exactly when every earlier check passed and its own failed. */
  function EntryToTest(entry: Node, isWord: char -> bool): (r: Result<Test, LoadError>)
    ensures r.Ok? <==> ValidEntry(entry, isWord)
    ensures r.Ok? ==>
              && Some(Scalar(r.value.name)) == Lookup(entry.entries, "name")
              && Some(r.value.command) == Lookup(entry.entries, "command")
              && Some(r.value.expected) == Lookup(entry.entries, "expected")
              && r.value.group == Lookup(entry.entries, "group")
    ensures r == Err(EntryNotMapping) <==> !entry.Mapping?
    ensures r == Err(MissingExpected) <==> entry.Mapping? && !HasExpected(entry)
    ensures r == Err(MissingCommand) <==> HasExpected(entry) && !HasKey(entry.entries, "command")
    ensures r == Err(MissingName) <==> HasCommand(entry) && !HasKey(entry.entries, "name")
    ensures r == Err(NameNotString) <==> HasName(entry) && !Lookup(entry.entries, "name").value.Scalar?
    ensures r.Err? && r.error.IllegalName? <==> HasStringName(entry) && !NameMatches(NameOf(entry), isWord)
    ensures HasStringName(entry) && !NameMatches(NameOf(entry), isWord) ==> r == Err(IllegalName(NameOf(entry)))
    ensures r.Err? && r.error.EmptyGroup? <==>
              && HasLegalName(entry, isWord)
              && HasKey(entry.entries, "group")
              && !Truthy(Lookup(entry.entries, "group").value)
    ensures HasLegalName(entry, isWord) && HasKey(entry.entries, "group") && !Truthy(Lookup(entry.entries, "group").value) ==>
              r == Err(EmptyGroup(NameOf(entry)))
  {
    if !entry.Mapping? then Err(EntryNotMapping)
    else
      var es := entry.entries;
      match Lookup(es, "expected")
      case None => Err(MissingExpected)
      case Some(expected) =>
        if !Truthy(expected) then Err(MissingExpected)
        else
          match Lookup(es, "command")
          case None => Err(MissingCommand)
          case Some(command) =>
            match Lookup(es, "name")
            case None => Err(MissingName)
            case Some(nameNode) =>
              if !nameNode.Scalar? then Err(NameNotString)
              else if !MatchName(nameNode.text, isWord) then Err(IllegalName(nameNode.text))
              else
                var group := Lookup(es, "group");
                if group.Some? && !Truthy(group.value) then Err(EmptyGroup(nameNode.text))
                else Ok(Test(nameNode.text, command, expected, group))
  }

  /** The position of the first entry the loader rejects, or the length
      of the list when every entry is accepted. */
  function FirstInvalid(items: seq<Node>, isWord: char -> bool): (k: nat)
    ensures k <= |items|
    ensures forall j :: 0 <= j < k ==> ValidEntry(items[j], isWord)
    ensures k < |items| ==> !ValidEntry(items[k], isWord)
  {
    if items == [] || !ValidEntry(items[0], isWord) then 0
    else 1 + FirstInvalid(items[1..], isWord)
  }

  /** The entry loop: every entry becomes a test, in order; the first
      rejected entry stops the load with its error. */
  function LoadEntries(items: seq<Node>, isWord: char -> bool): (r: Result<seq<Test>, LoadError>)
    ensures r.Ok? <==> FirstInvalid(items, isWord) == |items|
    ensures r.Ok? ==> |r.value| == |items|
    ensures r.Ok? ==> forall i :: 0 <= i < |items| ==> EntryToTest(items[i], isWord) == Ok(r.value[i])
    ensures r.Err? ==> Err(r.error) == EntryToTest(items[FirstInvalid(items, isWord)], isWord)
  {
    if items == [] then Ok([])
    else
      match EntryToTest(items[0], isWord)
      case Err(err) =>
        assert FirstInvalid(items, isWord) == 0;
        Err(err)
      case Ok(t) =>
        assert FirstInvalid(items, isWord) == 1 + FirstInvalid(items[1..], isWord);
        var rest :- LoadEntries(items[1..], isWord);
        assert forall i :: 1 <= i < |items| ==> items[i] == items[1..][i - 1];
        Ok([t] + rest)
  }

  /** The checks of `_get_tests_from_file` on the parsed document. */
  function LoadTests(root: Node, isWord: char -> bool): (r: Result<seq<Test>, LoadError>)
    ensures !root.Sequence? ==> r == Err(NotASequence)
    ensures r.Ok? <==> root.Sequence? && forall i :: 0 <= i < |root.items| ==> ValidEntry(root.items[i], isWord)
    ensures r.Ok? ==> |r.value| == |root.items|
  {
    match root
    case Sequence(items) => LoadEntries(items, isWord)
    case _ => Err(NotASequence)
  }

  // ---------------------------------------------------------------------
  // Group filters
  // ---------------------------------------------------------------------

  /** The tests that satisfy `keep`, in their original order. */
  function Filter(ts: seq<Test>, keep: Test -> bool): (r: seq<Test>)
    ensures |r| <= |ts|
    ensures forall t :: t in r <==> t in ts && keep(t)
  {
    if ts == [] then []
    else
      var rest := Filter(ts[..|ts| - 1], keep);
      assert forall t :: t in ts <==> t in ts[..|ts| - 1] || t == ts[|ts| - 1];
      if keep(ts[|ts| - 1]) then rest + [ts[|ts| - 1]] else rest
  }

  /** The source's `test.group == group`: a group read from the file equals
      the option's string exactly when it is that string. */
  predicate InGroup(t: Test, g: string) {
    t.group == Some(Scalar(g))
  }

  /** `--exclude-group g`: drop exactly the tests of group `g`. */
  function ExcludeGroup(ts: seq<Test>, g: string): (r: seq<Test>)
    ensures forall t :: t in r <==> t in ts && !InGroup(t, g)
  {
    Filter(ts, t => !InGroup(t, g))
  }

  /** `--only-group g`: keep exactly the tests of group `g`. */
  function OnlyGroup(ts: seq<Test>, g: string): (r: seq<Test>)
    ensures forall t :: t in r <==> t in ts && InGroup(t, g)
  {
    Filter(ts, t => InGroup(t, g))
  }

  /** Whether a test survives both group options of `opts`; an empty option
      lets every test through. */
  predicate Passes(t: Test, opts: Options) {
    && (opts.excludeGroup == "" || !InGroup(t, opts.excludeGroup))
    && (opts.onlyGroup == "" || InGroup(t, opts.onlyGroup))
  }

  // ---------------------------------------------------------------------
  // Selection by name (`-t`)
  // ---------------------------------------------------------------------

  /** `s.split(c)`: the pieces between occurrences of `c`; never empty. */
  function Split(s: string, c: char): (r: seq<string>)
    ensures |r| >= 1
    ensures forall i :: 0 <= i < |r| ==> c !in r[i]
  {
    if c !in s then [s]
    else
      var p := IndexOf(s, c);
      [s[..p]] + Split(s[p + 1..], c)
  }

  /** The inverse of `Split`: the pieces joined with the separator. */
  function Join(parts: seq<string>, c: char): string
    requires |parts| >= 1
  {
    if |parts| == 1 then parts[0] else parts[0] + [c] + Join(parts[1..], c)
  }

  /** `name_to_test[n]` after the dictionary was filled in list order: the
      last test with that name. */
  function LastNamed(ts: seq<Test>, n: string): (r: Option<Test>)
    ensures r.Some? <==> exists i :: 0 <= i < |ts| && ts[i].name == n
    ensures r.Some? ==> r.value in ts && r.value.name == n
    ensures r.Some? ==> exists i :: 0 <= i < |ts| && ts[i] == r.value && forall j :: i < j < |ts| ==> ts[j].name != n
  {
    if ts == [] then None
    else if ts[|ts| - 1].name == n then Some(ts[|ts| - 1])
    else
      var r := LastNamed(ts[..|ts| - 1], n);
      assert forall i :: 0 <= i < |ts| - 1 ==> ts[..|ts| - 1][i] == ts[i];
      r
  }

  /** The position of the first requested name that no test has, or the
      number of names when every name is known. */
  function FirstUnknown(ts: seq<Test>, names: seq<string>): (k: nat)
    ensures k <= |names|
    ensures forall j :: 0 <= j < k ==> LastNamed(ts, names[j]).Some?
    ensures k < |names| ==> LastNamed(ts, names[k]).None?
  {
    if names == [] || LastNamed(ts, names[0]).None? then 0
    else 1 + FirstUnknown(ts, names[1..])
  }

  /** The `-t` loop: each requested name in turn, failing on the first
      name no test has. */
  function SelectNames(ts: seq<Test>, names: seq<string>): (r: Result<seq<Test>, LoadError>)
    ensures r.Ok? <==> FirstUnknown(ts, names) == |names|
    ensures r.Ok? ==> |r.value| == |names|
    ensures r.Ok? ==> forall i :: 0 <= i < |names| ==> Some(r.value[i]) == LastNamed(ts, names[i])
    ensures r.Err? ==> r.error == UnknownTest(names[FirstUnknown(ts, names)])
  {
    if names == [] then Ok([])
    else
      match LastNamed(ts, names[0])
      case None => Err(UnknownTest(names[0]))
      case Some(t) =>
        var rest :- SelectNames(ts, names[1..]);
        assert forall i :: 1 <= i < |names| ==> names[i] == names[1..][i - 1];
        Ok([t] + rest)
  }

  /** The active tests: the `-t` names if given (looked up by name, in the
      order given), then the group exclusion, then the group restriction. */
  function Activate(ts: seq<Test>, opts: Options): (r: Result<seq<Test>, LoadError>)
    ensures opts == Options("", "", "") ==> r == Ok(ts)
    ensures r.Ok? ==> forall t :: t in r.value ==> t in ts
    ensures r.Ok? && opts.excludeGroup != "" ==> forall t :: t in r.value ==> !InGroup(t, opts.excludeGroup)
    ensures r.Ok? && opts.onlyGroup != "" ==> forall t :: t in r.value ==> InGroup(t, opts.onlyGroup)
    ensures opts.testSubset == "" ==> r.Ok?
  {
    var chosen :-
      if opts.testSubset == "" then Ok(ts)
      else if ts == [] then Err(NoTestBound)
      else SelectNames(ts, Split(opts.testSubset, ','));
    assert forall t :: t in chosen ==> t in ts by {
      if opts.testSubset != "" && ts != [] {
        var names := Split(opts.testSubset, ',');
        forall t | t in chosen ensures t in ts {
          var i :| 0 <= i < |chosen| && chosen[i] == t;
          assert Some(t) == LastNamed(ts, names[i]);
        }
      }
    }
    var afterExclude := if opts.excludeGroup != "" then ExcludeGroup(chosen, opts.excludeGroup) else chosen;
    var afterOnly := if opts.onlyGroup != "" then OnlyGroup(afterExclude, opts.onlyGroup) else afterExclude;
    Ok(afterOnly)
  }

  /** `_get_tests_from_file` on the lines of the input file: all tests and
      the active tests. */
  function GetTests(lines: seq<string>, opts: Options, isWord: char -> bool): (r: Result<(seq<Test>, seq<Test>), Failure>)
    ensures Parse(lines).Err? ==> r == Err(ParseFailed(Parse(lines).error))
    ensures r.Ok? ==> Parse(lines).Ok? && LoadTests(Parse(lines).value, isWord) == Ok(r.value.0)
    ensures r.Ok? ==> forall t :: t in r.value.1 ==> t in r.value.0
    ensures r.Ok? && opts == Options("", "", "") ==> r.value.1 == r.value.0
    ensures r.Ok? ==> Activate(r.value.0, opts) == Ok(r.value.1)
    ensures Parse(lines).Ok? && LoadTests(Parse(lines).value, isWord).Err? ==>
              r == Err(LoadFailed(LoadTests(Parse(lines).value, isWord).error))
    ensures Parse(lines).Ok? && LoadTests(Parse(lines).value, isWord).Ok? ==>
              var ts := LoadTests(Parse(lines).value, isWord).value;
              && (Activate(ts, opts).Err? ==> r == Err(LoadFailed(Activate(ts, opts).error)))
              && (Activate(ts, opts).Ok? ==> r == Ok((ts, Activate(ts, opts).value)))
  {
    match Parse(lines)
    case Err(e) => Err(ParseFailed(e))
    case Ok(doc) =>
      match LoadTests(doc, isWord)
      case Err(le) => Err(LoadFailed(le))
      case Ok(ts) =>
        match Activate(ts, opts)
        case Err(le) => Err(LoadFailed(le))
        case Ok(active) => Ok((ts, active))
  }
}
