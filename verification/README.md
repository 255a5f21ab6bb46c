# MiniSciATH block-YAML parser and test loader, in Dafny

MiniSciATH is a small test runner. Its input is a YAML-like file with a list of
tests. The runner reads that file with its own parser for a subset of YAML
block collections, not with a YAML library. This project models:

- **The parser**: `_parse_line` plus the stack engine of
  `_parse_yaml_subset_from_file` (`minisciath.py`).
- **The test-entry checks and group filters** of `_get_tests_from_file`.

The pieces of the model:

- **Scanner** (`scanner.dfy`). `_parse_line` and the entry classification of
  the parsing loop.
  - The indentation is the number of leading whitespace characters. Each of
    them must be a space.
  - The content is cut at the first `#` and right-trimmed.
  - A `-` line is a sequence entry.
  - Any other content must hold exactly one `:`.
  - Whitespace is Python 3's `str.isspace` set (see "Left out" for Python 2).
- **Engine** (`engine.dfy`). A functional stack machine.
  - Each frame owns its container.
  - A nested container is written into its parent's last slot when its frame
    is popped (`PopInto`). The slot holds the empty-string placeholder until then.
  - At end of input, every open frame is folded into its parent (`CloseAll`).
  - `Parse` runs the whole pipeline on the lines of a file.
- **Aliasing** (`aliasing.dfy`). A reference model of the code as written.
  - Lists and dicts are heap objects.
  - A new container is linked into its parent by reference at once (lines
    296 and 303). Later appends show up through that reference.
  - `PyParse` reads the bottom frame's object as a tree.
- **Equivalence** and **Agreement** (`equivalence.dfy`, `agreement.dfy`).
  These prove, line by line, that the two models give the same document or
  the same error on every input (`ParseMatchesAliasing`).
- **ParseFacts** (`parse_facts.dfy`). Whole-file properties:
  - the first failure is final;
  - line numbers only label errors;
  - a blank line changes nothing;
  - "no entries" happens exactly when every line is blank;
  - the document's kind is the first entry's kind.
  - a flat list or flat mapping parses to its entries in file order.
- **Loader** and **LoaderFacts** (`loader.dfy`, `loader_facts.dfy`).
  `_get_tests_from_file` after the parse:
  - the per-entry checks, in the source's order;
  - the `-t` selection;
  - `--exclude-group` and `--only-group`.

  Python's `\w` is the parameter `isWord`.

The model follows the code wherever the code and a prose description of the
format differ:

- A mapping line must contain exactly one colon. The two-way unpack at
  `minisciath.py:264` fails for zero colons and for two or more. The model
  does not split at the first colon.
- `- name: t1` is a sequence entry whose value is the string `name: t1`
  (`minisciath.py:259-261`). It is not a compact one-entry mapping, so a
  deeper line under it is rejected because the sequence line has data.
- Errors raised through `_parse_error` carry the 1-based line number. The
  failed unpack (`UnpackFailure`) and the final `stack[0]` on an empty stack
  (`NoEntries`) are raw Python exceptions and have no line number.
- The duplicate-name guard of the loader compares a name with `Test` objects,
  so it never fires (`minisciath.py:119`). Duplicate names load, and `-t`
  picks the last test of a name.
- The `-t` loop has two quirks:
  - On an empty test list it reads an unbound variable (`NoTestBound`).
  - Its membership test always succeeds (line 144), so an unknown name fails
    at the dictionary lookup (`UnknownTest`).

## Model

| member | source | states |
|---|---|---|
| Scanner.IsWhitespace | minisciath.py:213 | the characters `lstrip`, `rstrip` and `strip` remove (lines 213, 219, 261, 265-266): Python 3's `str.isspace` set |
| Scanner.TrimNewlines | minisciath.py:212 | the result is a prefix of the line, followed only by newlines, and does not itself end in a newline |
| Scanner.LeadingWhitespace | minisciath.py:213-214 | the indent count covers exactly the leading run of whitespace: everything before it is whitespace and the next character is not |
| Scanner.RStrip | minisciath.py:219 | a prefix of the input followed only by whitespace, not ending in whitespace |
| Scanner.Strip | minisciath.py:261 | `strip()` gives the slice of the input that starts after the leading whitespace and is followed only by whitespace, and neither end of the slice is whitespace |
| Scanner.StripKeepsStripped | minisciath.py:265-266 | stripping a string with no whitespace at either end returns it unchanged (so `strip` is idempotent) |
| Scanner.BeforeHash | minisciath.py:219 | `split('#')[0]` is the prefix before the first `#`: it holds no `#`, and the input continues with `#` when the prefix is shorter |
| Scanner.ContentIsCommentFree | minisciath.py:219 | cutting at `#` and right-trimming yields content with no `#`, not ending in whitespace, and followed before any `#` only by whitespace |
| Scanner.NonSpaceIndentIsVisible | minisciath.py:215 | the slice test `line[:indent] != ' ' * indent` fails exactly when some leading whitespace character is not a space |
| Scanner.ScanLine | minisciath.py:209-221 | rejects a line exactly when its leading whitespace holds a non-space (even a whitespace-only line); otherwise the indent is the all-space leading run and the content is the comment-free, right-trimmed rest |
| Scanner.CountOne | minisciath.py:264 | a string has exactly one `:` iff the first `:` is the only one |
| Scanner.Classify | minisciath.py:259-266 | content starting with `-` is a sequence entry whose value is the stripped rest; otherwise it is a mapping entry exactly when there is a single colon, with the stripped key before and the stripped value after it; in every other case the unpack fails |
| Scanner.Lex | minisciath.py:254-266 | a bad indent is an error at that line number; the line is blank exactly when its scanned content is empty; otherwise content that does not classify is the unpack failure and content that does gives the scanned indent with the classified entry; the only errors are the indent error and the unpack failure |
| Scanner.LexAll | minisciath.py:252-254 | one verdict per line: line `i` (from 0) gets the verdict of that line alone scanned as line number `i + 1`; never the "no entries" failure |
| Engine.SetLast | minisciath.py:296-303 | replacing a container's last slot changes only that slot, keeps every key, and keeps mapping keys unique |
| Engine.Start | minisciath.py:271-277 | a first or nested entry creates a one-slot container of its own kind, holding the entry's value under its key |
| Engine.Insert | minisciath.py:316-326 | an entry of the wrong kind fails with "invalid entry type"; a key already in that mapping fails with "duplicate key"; otherwise the value is appended at the end, in file order, and keys stay unique |
| Engine.PopInto | minisciath.py:289-303 | popping writes the finished child container into exactly the parent's last slot; frames below and the parent's other slots are untouched, and the stack invariant is kept |
| Engine.Unwind | minisciath.py:305-313 | the dedent succeeds iff some frame below the top has exactly that indent, and then leaves that frame on top with everything below unchanged and its last slot holding the popped frames folded together (`CloseAll` of them); otherwise it fails with "invalid indentation", including for an indent between two open levels |
| Engine.UnwoundByPop | minisciath.py:306-313 | a pop that reaches the indent ends the unwinding, with a matching frame below the old top |
| Engine.UnwoundAfterPop | minisciath.py:306-313 | a pop that does not reach the indent passes the verdict and the result of unwinding the shorter stack back to the longer one |
| Engine.Nest | minisciath.py:280-303 | a deeper line succeeds iff the top's last slot is the empty string (else the sequence or mapping "has data" error by the top's kind), and then pushes exactly one frame, keeping indents strictly increasing |
| Engine.AddAtLevel | minisciath.py:315-326 | an entry at the top's level succeeds or fails as `Insert` on the top container does; only the top frame changes; the root's indent and kind are kept |
| Engine.Step | minisciath.py:269-326 | the first entry creates the root; a deeper line nests; an equal indent adds; a shallower indent fails with "invalid indentation" when no open level has that indent and otherwise adds the entry in the frame it unwinds to; on success the stack invariant holds and the root keeps its indent and kind |
| Engine.Feed | minisciath.py:252-256 | a blank or comment line leaves the stack exactly as it was; a scanner error stops the pass with that error; a content line gives the step's new stack, or the step's rejection reported at this line's number (never the indent error) |
| Engine.Run | minisciath.py:249-252 | after any prefix of lines the stack satisfies the invariant, and the top's last slot holds a scalar |
| Engine.CloseAll | minisciath.py:328 | folding the open frames gives a well-formed container of the bottom frame's kind and size |
| Engine.Parse | minisciath.py:230-328 | a parsed document is a list or a dictionary, never a bare scalar, and every dictionary in it has unique keys; the "no entries" failure happens iff the stack is still empty at the end |
| Nodes.Truthy | minisciath.py:109 | Python truthiness of a parsed value (also used for `group` at line 130): a non-empty string, list or dictionary |
| Nodes.Lookup | minisciath.py:108-113 | `d[k]` finds a value iff the key is present, and the value is the one stored with that key |
| Aliasing.FindKey | minisciath.py:322 | `key in d` finds the first position holding the key, and none exists when it reports none |
| Aliasing.DictSet | minisciath.py:325 | `d[k] = v` keeps every key's position and every other pair; a present key keeps the length, a new key is appended at the end; afterwards `k` finds `v` |
| Aliasing.LinkTarget | minisciath.py:291-303 | the slot a nested line addresses exists only in an object on the heap, at a position inside it: `prev.data[-1]` of a non-empty list or `prev.data[prev_key]` of a dict holding the key |
| Aliasing.Link | minisciath.py:289-303 | the slot addressed is `prev.data[-1]` (the last item) for a list and `prev.data[prev_key]` for a dict; linking succeeds iff that slot is falsy, and a truthy slot fails with the sequence or mapping "has data" error by `prev`'s type; on success only that slot of the parent object changes, it now refers to the new object, and no other object changes; a missing slot is a lookup error |
| Aliasing.PyUnwind | minisciath.py:305-313 | the source's unwinding loop succeeds iff some frame below the top has the requested indent; it then stops at the nearest such frame, leaving a non-empty proper prefix of the stack with no frame of that indent popped; running out of frames fails with "invalid indentation" |
| Aliasing.PyAdd | minisciath.py:315-326 | an entry of the wrong type fails with "invalid entry type" and a key already present with "duplicate key"; on a consistent state these are the only failures; on success the value is a new last slot of the top container, stored under the entry's key for a dict with the other keys unchanged, no other object or frame changes, `prev_key` becomes the entry's key (none for a list item), and consistency is kept |
| Aliasing.SlotTruthy | minisciath.py:291-298 | Python truthiness of a list item or dict value: a non-empty string, or a reference to a non-empty list or dict |
| Aliasing.StartObj | minisciath.py:271-277 | the first entry's container: a one-item list for `- value`, a one-pair dict for `key: value` |
| Aliasing.PyStep | minisciath.py:269-326 | the first entry makes a one-slot root object of its type; after any successful entry the top frame has the entry's indent and type and at most one object was allocated; a dedent to no open level fails with "invalid indentation"; consistency is kept |
| Aliasing.PyNest | minisciath.py:280-303 | a deeper entry pushes exactly one frame at its indent and type whose container is the one newly allocated object; consistency is kept |
| Aliasing.PyDedent | minisciath.py:305-326 | a shallower entry fails with "invalid indentation" when unwinding fails; otherwise it lands in a strictly shorter stack whose top has the entry's indent and type, allocating nothing; consistency is kept |
| Aliasing.LinkKeepsConsistent | minisciath.py:284-303 | linking a new empty container of the entry's type and pushing its frame keeps every frame naming an object of its own type |
| Aliasing.PyFeed | minisciath.py:252-256 | a scanner error stops the parse with that error; a blank line leaves the state as it was; a step's rejection fails the parse, numbered with this line when it is a parse error; consistency is kept |
| Aliasing.PyRun | minisciath.py:249-256 | the loop gets past a prefix of lines only when none of them failed to scan, and its state keeps every frame naming an object of its type |
| Aliasing.Resolve | minisciath.py:328 | an object reads as a list iff it is a list object and as a dictionary iff it is a dict object, with as many elements and, for a dict, the same keys in the same order |
| Aliasing.PyParse | minisciath.py:230-328 | the program's result is a list or a dictionary; after a pass that got through every line it fails with "no entries" iff the stack is empty |
| Equivalence.ResolveFraming | minisciath.py:296-303 | a container and the objects it refers to read as the same tree in any heap that agrees with this one on those objects |
| Equivalence.PopCorr | minisciath.py:305-313 | popping a frame on both sides keeps the two models in correspondence: what the program sees through the reference is what the functional model writes into the parent slot |
| Equivalence.UnwindCorr | minisciath.py:305-313 | unwinding fails on both sides with "invalid indentation" or succeeds on both with corresponding stacks |
| Equivalence.CloseAllCorr | minisciath.py:328 | at end of input, folding the functional frames gives what the program reads through the bottom frame's object |
| Equivalence.TopAppendCorr | minisciath.py:318-326 | appending one value to the top container and to the top object keeps the correspondence |
| Equivalence.KeyLookupCorr | minisciath.py:322 | the functional and the heap dictionary report the same keys as present |
| Equivalence.AddCorr | minisciath.py:315-326 | adding at the top's level gives the same error on both sides, or success on both with corresponding states |
| Equivalence.AddItemCorr | minisciath.py:318-320 | a list item at the top's level is appended on both sides, keeping the correspondence |
| Equivalence.AddPairCorr | minisciath.py:321-326 | a mapping entry at the top's level fails with "duplicate key" on both sides or is added on both, keeping the correspondence |
| Equivalence.LastKeyFound | minisciath.py:298 | with unique keys, `prev_key` finds the last slot of the dict |
| Equivalence.LinkLast | minisciath.py:296-303 | the linked parent object differs from the old one only in its last slot, which now refers to the new object |
| Equivalence.LinkCorr | minisciath.py:284-303 | both sides reject a non-empty previous slot with the same error; otherwise the program stores the reference to the new object in exactly the last slot |
| Equivalence.NewTopCorr | minisciath.py:271-277 | a newly allocated one-slot object corresponds to the functional frame of a first or nested entry |
| Equivalence.NestPyStep | minisciath.py:280-303 | the program's deeper-line step fails exactly when the functional top's last slot is not empty, and otherwise allocates, links and adds |
| Equivalence.NestStateCorr | minisciath.py:280-303 | after a successful deeper line, the pushed functional frame corresponds to the program's new object and state |
| Equivalence.NestCorr | minisciath.py:280-303 | a deeper line gives the same verdict on both sides, with corresponding states after success |
| Equivalence.StepFirstCorr | minisciath.py:269-277 | the first entry gives corresponding one-frame states on both sides |
| Equivalence.StepLevelCorr | minisciath.py:315-326 | an entry at the top's level gives the same verdict on both sides |
| Equivalence.StepShallowerCorr | minisciath.py:305-326 | a shallower entry gives the same verdict on both sides |
| Equivalence.StepCorr | minisciath.py:269-326 | each non-blank entry gives the same verdict on both sides, with corresponding states after success |
| Equivalence.FeedCorr | minisciath.py:252-256 | each scanned line gives the same verdict on both sides |
| Agreement.RunCorr | minisciath.py:249-326 | after every prefix of lines the two models agree |
| Agreement.ParseMatchesAliasing | minisciath.py:230-328 | the source's reference-sharing parser returns the functional model's document, or fails with the same error, on every input; it never hits a missing key or index |
| Agreement.NoLookupFailure | minisciath.py:230-328 | the program never fails with a `KeyError` or `IndexError` on its own containers, and what it returns is well-formed, with unique keys in every dictionary |
| ParseFacts.ErrStep | minisciath.py:224-227 | a failed pass stays failed with the same error over one more line |
| ParseFacts.FailureIsFinal | minisciath.py:224-227 | the first failure ends the parse: no later line changes the outcome |
| ParseFacts.ScanErrorStep | minisciath.py:254 | a line the scanner rejects fails a pass that had not failed yet |
| ParseFacts.ScanErrorIsFinal | minisciath.py:254 | a line the scanner rejects, with no earlier failure, is the whole parse's error |
| ParseFacts.NonSpaceIndentRejected | minisciath.py:212-216 | a line whose indentation holds a non-space (a tab, say) is rejected at its own 1-based line number, even when it is otherwise blank |
| ParseFacts.LexIgnoresLineNumber | minisciath.py:209-221 | a line scans alike whatever its number |
| ParseFacts.FeedIgnoresLineNumber | minisciath.py:252-326 | lines that scan alike drive the engine to the same stack whatever their numbers; only error line numbers differ |
| ParseFacts.AlikeStep | minisciath.py:252-326 | two passes that agree up to line numbers keep agreeing over lines of the same shape |
| ParseFacts.BlankStep | minisciath.py:255-256 | a blank or comment line leaves the pass's outcome as it was |
| ParseFacts.SkipBlankStep | minisciath.py:255-256 | a blank line on one side, followed by lines of the same shape on both sides, does not make two passes differ |
| ParseFacts.EmptyStep | minisciath.py:255-256 | one more line leaves the stack empty iff the line is blank and the stack was empty |
| ParseFacts.EmptyIffAllBlank | minisciath.py:255-256 | the stack stays empty exactly as long as every line is blank or a comment |
| ParseFacts.AllBlankIff | minisciath.py:255-256 | "every line so far is blank", defined step by step, means every one of those lines is blank |
| ParseFacts.NoEntriesIffAllBlank | minisciath.py:328 | a file fails at the final `stack[0]` iff every line is blank or a comment |
| ParseFacts.RootStep | minisciath.py:278-326 | once a root exists, one more line keeps its indent and kind |
| ParseFacts.FirstEntryStep | minisciath.py:269-277 | an entry on the empty stack creates the root frame at its own indent with its own kind |
| ParseFacts.RootKept | minisciath.py:278-326 | a root, once there, keeps its indent and kind to the end of the file |
| ParseFacts.RootFromFirstEntry | minisciath.py:269-326 | after the first entry, the root is the frame that entry created |
| ParseFacts.DocumentKindFromFirstEntry | minisciath.py:269-277 | a parsed document is a list iff the file's first entry is a `- item`, and a dictionary iff it is a `key: value` |
| ParseFacts.FlatItemsStep | minisciath.py:315-320 | on a one-frame list of the first `j` items, the next `- item` line at the same indent appends its value at the end |
| ParseFacts.FlatPairsStep | minisciath.py:321-326 | on a one-frame dictionary of the first `j` pairs, the next `key: value` line at the same indent with a new key appends that pair at the end |
| ParseFacts.FlatItemsRun | minisciath.py:249-320 | after the first `j` lines of a flat list, the stack is one frame holding exactly the first `j` items in file order |
| ParseFacts.FlatPairsRun | minisciath.py:249-326 | after the first `j` lines of a flat mapping with distinct keys, the stack is one frame holding exactly the first `j` pairs in file order |
| ParseFacts.ParseOneFrame | minisciath.py:328 | a pass that ends with one open frame returns that frame's container |
| ParseFacts.FlatSequence | minisciath.py:230-328 | a file of `- item` lines at one indent parses to the list of those items, in file order, each the stripped text after the dash |
| ParseFacts.FlatMapping | minisciath.py:230-328 | a file of `key: value` lines at one indent with distinct keys parses to the dictionary of those pairs, in file order, each value the stripped text after the colon |
| Loader.NameMatches | minisciath.py:114 | the declarative reading of `^\w+$`: one or more word characters, optionally followed by one final newline |
| Loader.WordPrefix | minisciath.py:114 | the greedy run of word characters: all of them are word characters and the next one is not |
| Loader.MatchName | minisciath.py:114 | the regex engine's greedy match of `^\w+$` agrees with the declarative reading: one or more word characters, optionally followed by one final newline |
| Loader.EntryToTest | minisciath.py:105-132 | an entry becomes a test iff it is a dict with a truthy `expected`, a `command`, a string `name` matching `^\w+$` and, if present, a truthy `group`; the test holds exactly those values; each failure is reported exactly when every earlier check passes and its own check fails, in the source's order, and the illegal-name and empty-group failures carry the entry's name |
| Loader.FirstInvalid | minisciath.py:105-134 | every entry before the position is valid and the entry at it is not |
| Loader.LoadEntries | minisciath.py:105-134 | all entries load iff none is invalid, giving one test per entry in order; otherwise the error is the first invalid entry's |
| Loader.LoadTests | minisciath.py:101-104 | a top level that is not a list is rejected; a list loads iff every element is a valid entry, giving one test per element |
| Loader.Filter | minisciath.py:150-155 | the list comprehension keeps exactly the tests that pass, and never more than it had |
| Loader.InGroup | minisciath.py:150-155 | `test.group == group`: the test has a group read from the file, and it is the option's string |
| Loader.Passes | minisciath.py:149-155 | a test survives `--exclude-group` (it is not in that group) and `--only-group` (it is in that group), an absent option letting every test through |
| Loader.ExcludeGroup | minisciath.py:150-152 | `--exclude-group g` keeps exactly the tests not in group `g` |
| Loader.OnlyGroup | minisciath.py:153-155 | `--only-group g` keeps exactly the tests in group `g` |
| Loader.Split | minisciath.py:141 | `split(',')` yields at least one piece, none containing the separator |
| Loader.LastNamed | minisciath.py:138-140 | the name dictionary finds a test iff some test has that name, and then finds the last such test |
| Loader.FirstUnknown | minisciath.py:142-146 | every requested name before the position is known and the one at it is not |
| Loader.SelectNames | minisciath.py:142-146 | `-t` succeeds iff every requested name is known, giving the last test of each name in the order requested; otherwise it fails at the first unknown name |
| Loader.Activate | minisciath.py:137-155 | without options the active tests are all tests; active tests are always among the loaded ones, outside the excluded group and inside the only-group; without `-t` nothing fails |
| LoaderFacts.ActivateExact | minisciath.py:137-155 | without `-t`, the active tests are exactly the loaded tests that pass both group options, in file order; with `-t` over no tests the unbound-variable failure; otherwise the selection fails iff `SelectNames` fails, with its error, and on success the active tests are exactly the selected tests that pass both group options, in the order requested |
| LoaderFacts.GroupOptionsArePasses | minisciath.py:149-155 | the exclude and the only filter applied in turn, each only when its option is given, keep exactly the tests that pass `Passes` |
| Loader.GetTests | minisciath.py:98-157 | a parse failure, an entry failure and a selection failure are each passed on; on success the first list is exactly the loaded document's tests and the second is exactly what `Activate` selects from them, which is all of them without options |
| LoaderFacts.JoinSplit | minisciath.py:141 | joining the pieces of `split(',')` with commas gives back the option string |
| LoaderFacts.SplitJoin | minisciath.py:141 | splitting comma-joined comma-free names gives back those names |
| LoaderFacts.SplitAtFirst | minisciath.py:141 | a string is split right after its comma-free first piece |
| LoaderFacts.SplitNames | minisciath.py:141 | `a,b` splits into `a` and `b` |
| LoaderFacts.LastWins | minisciath.py:138-140 | the test added last to the name dictionary is the one its name finds |
| LoaderFacts.OtherNameUnchanged | minisciath.py:138-140 | adding a test of another name leaves every other lookup unchanged |
| LoaderFacts.DuplicateNameSelectsLast | minisciath.py:137-146 | with two tests of one name, selecting that name picks the second |
| LoaderFacts.DuplicateNamesAccepted | minisciath.py:119 | a valid entry listed twice loads as two equal tests: the duplicate-name guard never rejects |
| LoaderFacts.FilterConcat | minisciath.py:150-155 | filtering a concatenation filters each part |
| LoaderFacts.FilterPartition | minisciath.py:150-155 | a test and its complement split a list with no element lost or added |
| LoaderFacts.FilterAll | minisciath.py:150-155 | a filter that every element passes keeps the whole list, in order |
| LoaderFacts.FilterNone | minisciath.py:150-155 | a filter that no element passes keeps nothing |
| LoaderFacts.FilterCompose | minisciath.py:150-155 | two filters in turn are the filter by both tests |
| LoaderFacts.FilterSame | minisciath.py:150-155 | two filters that agree on every test keep the same list |
| LoaderFacts.ExcludeOnlyPartition | minisciath.py:150-155 | `--exclude-group g` and `--only-group g` split the tests between them: each test lands in exactly one |
| LoaderFacts.ExcludeGroupIdempotent | minisciath.py:150-152 | excluding a group twice is excluding it once |
| LoaderFacts.OnlyGroupIdempotent | minisciath.py:153-155 | restricting to a group twice is restricting once |
| LoaderFacts.ExcludeThenOnlyIsEmpty | minisciath.py:150-155 | excluding and restricting to the same group activates no test |
| LoaderFacts.ActivateWithoutSubset | minisciath.py:150-155 | without `-t`, the active tests are the file's tests that pass both group options, in file order |

## Left out

- The file read (`minisciath.py:246-247`): the model takes the file's lines as input, each with its newline.
- `run`, `_get_arguments`, `_execute`, `_verify`, `_report` and `_print_info` (`minisciath.py:28-206`): argument parsing, subprocesses, file comparison and printing, which are all I/O.
- `tinytest.py`: it parses with a YAML library and is otherwise I/O. Its checks repeat the loader's.
- Exception message text, the file name in messages, and the colour strings (`minisciath.py:14-15, 224-227`): an error is a reason plus a 1-based line number.
- `Test` objects are compared by identity in the source and by value here. The source compares with `Test` objects twice, and neither result depends on the choice:
  - line 119, `entry['name'] in tests`, compares a string with `Test` objects, so it is never true and the duplicate-name guard never fires;
  - line 144, `name_to_test[test.name] not in tests`, looks up a test that is in the list, so it is never true.
- Loader.MatchName: Python's `\w` is an uninterpreted character predicate `isWord`, not the Unicode word class.
- Loader.Activate: an absent command-line option is the empty string. Python treats `None` and `''` alike there.
- Loader.SelectNames: a `KeyError` for an unknown `-t` name is modelled as the `UnknownTest` failure. The source's intended "Unrecognized test" message is not modelled, because line 144 never raises it.
- ParseFacts.SkipBlankStep: blank lines are proved invisible one line at a time (`Engine.Feed`, `ParseFacts.BlankStep`, `ParseFacts.SkipBlankStep`). There is no single lemma that compares a whole file with and without an inserted blank line.
- ParseFacts.LexIgnoresLineNumber: independence from line numbers is stated for single lines and passes of equal shape. It is not stated for a file renumbered as a whole.
- Scanner.IsWhitespace: the script also runs under Python 2 (`minisciath.py:1-3`), where `lstrip`, `rstrip` and `strip` on a byte string remove only the six ASCII whitespace characters. The model uses Python 3's `str.isspace` set, so it does not cover a non-ASCII space (such as U+00A0) in a Python 2 run.
- Line endings: `readlines()` in text mode is assumed to have turned `\r\n` into `\n`, and no other newline translation is modelled.
