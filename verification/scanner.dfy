/** Line scanning and entry classification: `_parse_line` and the
    content-classification part of the parsing loop. */
module Scanner {
  import opened Results
  import opened Nodes
  import opened Errors

  /** Python 3's `str.isspace`, the set of characters that `strip`,
      `lstrip` and `rstrip` remove when called without arguments. */
  predicate IsWhitespace(c: char) {
    || c == '\t' || c == '\n' || c == '\U{000B}' || c == '\U{000C}' || c == '\r'
    || ('\U{001C}' <= c <= '\U{001F}') || c == ' ' || c == '\U{0085}' || c == '\U{00A0}'
    || c == '\U{1680}' || ('\U{2000}' <= c <= '\U{200A}') || c == '\U{2028}' || c == '\U{2029}'
    || c == '\U{202F}' || c == '\U{205F}' || c == '\U{3000}'
  }

  /** Neither end of `s` is whitespace: `s` is a fixed point of `strip()`. */
  predicate Stripped(s: string) {
    s == [] || (!IsWhitespace(s[0]) && !IsWhitespace(s[|s| - 1]))
  }

  /** Every character of `s` is a space. */
  predicate AllSpaces(s: string) {
    forall i :: 0 <= i < |s| ==> s[i] == ' '
  }

  /** `line.rstrip('\n')`. */
  function TrimNewlines(s: string): (r: string)
    ensures r <= s
    ensures forall k :: |r| <= k < |s| ==> s[k] == '\n'
    ensures r == [] || r[|r| - 1] != '\n'
  {
    if |s| > 0 && s[|s| - 1] == '\n' then TrimNewlines(s[..|s| - 1]) else s
  }

  /** The number of leading whitespace characters, `len(s) - len(s.lstrip())`. */
  function LeadingWhitespace(s: string): (n: nat)
    ensures n <= |s|
    ensures forall i :: 0 <= i < n ==> IsWhitespace(s[i])
    ensures n < |s| ==> !IsWhitespace(s[n])
  {
    if |s| > 0 && IsWhitespace(s[0]) then 1 + LeadingWhitespace(s[1..]) else 0
  }

  /** `s.rstrip()`. */
  function RStrip(s: string): (r: string)
    ensures r <= s
    ensures forall k :: |r| <= k < |s| ==> IsWhitespace(s[k])
    ensures r == [] || !IsWhitespace(r[|r| - 1])
  {
    if |s| > 0 && IsWhitespace(s[|s| - 1]) then RStrip(s[..|s| - 1]) else s
  }

  /** `s.strip()`: the whitespace-free core of `s`, found after the leading
      whitespace and followed only by whitespace. */
  function Strip(s: string): (r: string)
    ensures Stripped(r)
    ensures var a := LeadingWhitespace(s);
            && a + |r| <= |s|
            && r == s[a..a + |r|]
            && forall k :: a + |r| <= k < |s| ==> IsWhitespace(s[k])
  {
    RStrip(s[LeadingWhitespace(s)..])
  }

  /** Stripping a stripped string changes nothing; in particular `Strip` is idempotent. */
  lemma StripKeepsStripped(s: string)
    requires Stripped(s)
    ensures Strip(s) == s
  {
    if s != [] {
      assert LeadingWhitespace(s) == 0;
      assert RStrip(s) == s;
    }
  }

  /** `s.split('#')[0]`: everything before the first `#`. */
  function BeforeHash(s: string): (r: string)
    ensures r <= s
    ensures '#' !in r
    ensures |r| < |s| ==> s[|r|] == '#'
  {
    if |s| == 0 || s[0] == '#' then [] else [s[0]] + BeforeHash(s[1..])
  }

  /** A line split into its indentation and its comment-free content. */
  datatype Scanned = Scanned(indent: nat, content: string)

  /** The first `i + 1` characters of `t` are all whitespace. */
  predicate WhitespaceThrough(t: string, i: int)
    requires 0 <= i < |t|
  {
    forall j :: 0 <= j <= i ==> IsWhitespace(t[j])
  }

  /** Some character of the leading whitespace of `t` is not a space. */
  predicate HasNonSpaceIndent(t: string) {
    exists i {:trigger WhitespaceThrough(t, i)} :: 0 <= i < |t| && t[i] != ' ' && WhitespaceThrough(t, i)
  }

  /** `c` is the content of `rest` (a line without its indentation): `rest`
      starts with `c`, `c` holds no `#` and does not end in whitespace, and
      between `c` and the first `#` (or the end) there is only whitespace. */
  predicate IsContentOf(rest: string, c: string) {
    && c <= rest
    && '#' !in c
    && (c == [] || !IsWhitespace(c[|c| - 1]))
    && forall k :: |c| <= k < |rest| && '#' !in rest[..k + 1] ==> IsWhitespace(rest[k])
  }

  lemma NonSpaceIndentIsVisible(t: string)
    ensures HasNonSpaceIndent(t) <==> !AllSpaces(t[..LeadingWhitespace(t)])
  {
    var n := LeadingWhitespace(t);
    if !AllSpaces(t[..n]) {
      var i :| 0 <= i < n && t[..n][i] != ' ';
      assert t[i] != ' ' && WhitespaceThrough(t, i);
    } else {
      assert forall i :: 0 <= i < n ==> t[..n][i] == t[i];
    }
  }

  lemma ContentIsCommentFree(rest: string)
    ensures IsContentOf(rest, RStrip(BeforeHash(rest)))
  {
    var h := BeforeHash(rest);
    var c := RStrip(h);
    forall k | |c| <= k < |rest| && '#' !in rest[..k + 1]
      ensures IsWhitespace(rest[k])
    {
      assert h[k] == rest[k];
    }
  }

  /** `_parse_line`: the indentation is the number of leading whitespace
      characters, all of which must be spaces; the content is what follows,
      cut at the first `#` and right-trimmed. */
  function ScanLine(line: string): (r: Result<Scanned, Reason>)
    ensures var t := TrimNewlines(line);
      && (r.Err? <==> HasNonSpaceIndent(t))
      && (r.Err? ==> r.error == IndentWithSpacesOnly)
      && (r.Ok? ==>
            && r.value.indent <= |t|
            && AllSpaces(t[..r.value.indent])
            && (r.value.indent < |t| ==> !IsWhitespace(t[r.value.indent]))
            && IsContentOf(t[r.value.indent..], r.value.content))
  {
    var t := TrimNewlines(line);
    var n := LeadingWhitespace(t);
    NonSpaceIndentIsVisible(t);
    if !AllSpaces(t[..n]) then
      Err(IndentWithSpacesOnly)
    else
      ContentIsCommentFree(t[n..]);
      Ok(Scanned(n, RStrip(BeforeHash(t[n..]))))
  }

  /** A classified content line: a `- value` sequence entry or a `key: value`
      mapping entry. */
  datatype Entry = Item(value: string) | Pair(key: string, value: string)

  function EntryKind(e: Entry): Kind {
    if e.Item? then SeqKind else MapKind
  }

  /** `s` contains exactly one `c`, at position `p`. */
  predicate OnlyAt(s: string, c: char, p: int) {
    0 <= p < |s| && s[p] == c && c !in s[..p] && c !in s[p + 1..]
  }

  /** The number of occurrences of `c` in `s`. */
  function Count(s: string, c: char): nat {
    if |s| == 0 then 0 else (if s[0] == c then 1 else 0) + Count(s[1..], c)
  }

  /** The position of the first `c` in `s`. */
  function IndexOf(s: string, c: char): (p: nat)
    requires c in s
    ensures p < |s| && s[p] == c && c !in s[..p]
  {
    if s[0] == c then 0 else 1 + IndexOf(s[1..], c)
  }

  lemma {:induction false} CountZero(s: string, c: char)
    requires c !in s
    ensures Count(s, c) == 0
  {
    if |s| > 0 {
      assert c !in s[1..];
      CountZero(s[1..], c);
    }
  }

  /** Counting once is the same as occurring at exactly one position. */
  lemma {:induction false} CountOne(s: string, c: char)
    ensures Count(s, c) == 1 <==> c in s && OnlyAt(s, c, IndexOf(s, c))
  {
    if |s| > 0 {
      if s[0] == c {
        if c in s[1..] {
          var q :| 0 <= q < |s[1..]| && s[1..][q] == c;
          assert s[q + 1] == c;
          CountPositive(s[1..], c);
        } else {
          CountZero(s[1..], c);
        }
      } else {
        CountOne(s[1..], c);
        if c in s {
          assert c in s[1..];
          var p := IndexOf(s[1..], c);
          assert s[..p + 1] == [s[0]] + s[1..][..p];
          assert s[p + 2..] == s[1..][p + 1..];
        }
      }
    }
  }

  lemma {:induction false} CountPositive(s: string, c: char)
    requires c in s
    ensures Count(s, c) > 0
  {
    if s[0] != c {
      assert c in s[1..];
      CountPositive(s[1..], c);
    }
  }

  /** The entry classification of the parsing loop: content starting with `-`
      is a sequence entry holding the stripped rest; any other content must
      split on `:` into exactly two parts, the stripped key and value; every
      other colon count makes the two-way unpack fail (`None`). */
  function Classify(content: string): (r: Option<Entry>)
    ensures r.Some? && r.value.Item? <==> |content| > 0 && content[0] == '-'
    ensures r.Some? && r.value.Item? ==> r.value.value == Strip(content[1..])
    ensures r.None? <==>
              !(|content| > 0 && content[0] == '-') && !exists p :: OnlyAt(content, ':', p)
    ensures r.Some? && r.value.Pair? ==>
              exists p :: && OnlyAt(content, ':', p)
                          && r.value.key == Strip(content[..p])
                          && r.value.value == Strip(content[p + 1..])
  {
    CountOne(content, ':');
    if |content| > 0 && content[0] == '-' then Some(Item(Strip(content[1..])))
    else if Count(content, ':') != 1 then
      assert !exists p :: OnlyAt(content, ':', p) by {
        if exists p :: OnlyAt(content, ':', p) {
          var p :| OnlyAt(content, ':', p);
          assert ':' in content;
          var q := IndexOf(content, ':');
          assert q == p;
        }
      }
      None
    else
      var p := IndexOf(content, ':');
      Some(Pair(Strip(content[..p]), Strip(content[p + 1..])))
  }

  /** The scanner's verdict on one line. */
  datatype Lexed = Blank | Content(indent: nat, entry: Entry)

  /** Scans and classifies one line (number `lineNo`): a line whose content is
      empty is `Blank`; otherwise it yields the indent and the classified entry. */
  function Lex(line: string, lineNo: nat): (r: Result<Lexed, Error>)
    ensures r.Err? ==> r.error == LineError(lineNo, IndentWithSpacesOnly) || r.error == UnpackFailure
    ensures ScanLine(line).Err? ==> r == Err(LineError(lineNo, IndentWithSpacesOnly))
    ensures r == Ok(Blank) <==> ScanLine(line).Ok? && ScanLine(line).value.content == []
    ensures ScanLine(line).Ok? && ScanLine(line).value.content != [] ==>
              && (Classify(ScanLine(line).value.content).None? ==> r == Err(UnpackFailure))
              && (Classify(ScanLine(line).value.content).Some? ==>
                    r == Ok(Content(ScanLine(line).value.indent, Classify(ScanLine(line).value.content).value)))
    ensures r.Ok? && r.value.Content? ==>
              && ScanLine(line).Ok?
              && r.value.indent == ScanLine(line).value.indent
              && Classify(ScanLine(line).value.content) == Some(r.value.entry)
  {
    match ScanLine(line)
    case Err(reason) => Err(LineError(lineNo, reason))
    case Ok(sc) =>
      if sc.content == [] then Ok(Blank)
      else
        match Classify(sc.content)
        case None => Err(UnpackFailure)
        case Some(e) => Ok(Content(sc.indent, e))
  }

  /** Every line of a file through the scanner, numbered from 1. A line's
      verdict does not depend on the lines around it. */
  function LexAll(lines: seq<string>): (r: seq<Result<Lexed, Error>>)
    ensures |r| == |lines|
    ensures forall i :: 0 <= i < |lines| ==> r[i] == Lex(lines[i], i + 1)
    ensures forall i :: 0 <= i < |r| && r[i].Err? ==> r[i].error != NoEntries
  {
    seq(|lines|, i requires 0 <= i < |lines| => LexAt(lines, i))
  }

  /** Line `i` of `lines` (counted from 0) through the scanner. */
  function LexAt(lines: seq<string>, i: nat): Result<Lexed, Error>
    requires i < |lines|
  {
    Lex(lines[i], i + 1)
  }
}
