/** The older front end `cli.js`: after `minimist` has parsed argv, it
    splits the words after `--` into a command and its arguments, merges the
    `--exclude` globs with the lines of an ignore file, splits a textual
    `--filter` into event names, and refuses to start without a command or
    an outpipe.

    `minimist` and the file system are not part of this model: the parsed
    values are an input, and the ignore file is reported as missing, present
    but not a regular file, or a regular file with its text. */
module LegacyCli {
  import opened Wrappers

  // ------------------------------------------------------------------
  // Lists with Set semantics
  // ------------------------------------------------------------------

  predicate NoDup(xs: seq<string>) {
    forall i, j :: 0 <= i < j < |xs| ==> xs[i] != xs[j]
  }

  /** `xs.indexOf(y)` for an element that is present. */
  function FirstIndex(xs: seq<string>, y: string): (k: nat)
    requires y in xs
    ensures k < |xs| && xs[k] == y
    ensures forall i :: 0 <= i < k ==> xs[i] != y
    decreases |xs|
  {
    if xs[0] == y then 0
    else
      assert y in xs[1..] by { var i :| 0 <= i < |xs| && xs[i] == y; assert xs[1..][i - 1] == y; }
      1 + FirstIndex(xs[1..], y)
  }

  /** Appending an element moves no first occurrence. */
  lemma FirstIndexAppend(xs: seq<string>, z: string)
    ensures forall y :: y in xs ==> FirstIndex(xs + [z], y) == FirstIndex(xs, y)
  {
    forall y | y in xs
      ensures FirstIndex(xs + [z], y) == FirstIndex(xs, y)
    {
      var a := FirstIndex(xs + [z], y);
      var b := FirstIndex(xs, y);
      assert (xs + [z])[b] == y;
    }
  }

  /** `r` lists elements of `xs` in the order of their first occurrence. */
  ghost predicate FirstOrder(r: seq<string>, xs: seq<string>) {
    && (forall y :: y in r ==> y in xs)
    && forall i, j :: 0 <= i < j < |r| ==> FirstIndex(xs, r[i]) < FirstIndex(xs, r[j])
  }

  /** `[...new Set(xs)]`: a Set iterates in insertion order, so every element
      appears once, where it first occurred. */
  function Dedup(xs: seq<string>): (r: seq<string>)
    ensures NoDup(r)
    ensures forall y :: y in r <==> y in xs
    ensures FirstOrder(r, xs)
    decreases |xs|
  {
    if |xs| == 0 then []
    else
      var init := xs[..|xs| - 1];
      var y := xs[|xs| - 1];
      assert xs == init + [y];
      FirstIndexAppend(init, y);
      var d := Dedup(init);
      if y in d then d
      else
        assert FirstIndex(xs, y) == |init| by {
          assert xs[|init|] == y;
          assert forall i :: 0 <= i < |init| ==> xs[i] == init[i];
        }
        d + [y]
  }

  /** `set.delete(x)`, on the list of the set's elements. */
  function Without(xs: seq<string>, x: string): (r: seq<string>)
    ensures forall y :: y in r <==> y in xs && y != x
    ensures |r| <= |xs|
    decreases |xs|
  {
    if |xs| == 0 then []
    else
      assert xs == xs[..|xs| - 1] + [xs[|xs| - 1]];
      var init := Without(xs[..|xs| - 1], x);
      if xs[|xs| - 1] == x then init else init + [xs[|xs| - 1]]
  }

  lemma {:induction false} WithoutAppend(a: seq<string>, b: seq<string>, x: string)
    ensures Without(a + b, x) == Without(a, x) + Without(b, x)
    decreases |b|
  {
    if |b| == 0 {
      assert a + b == a;
    } else {
      var bi := b[..|b| - 1];
      assert (a + b)[..|a + b| - 1] == a + bi;
      assert (a + b)[|a + b| - 1] == b[|b| - 1];
      WithoutAppend(a, bi, x);
    }
  }

  /** Deleting from the set after building it is the same as never
      inserting: the order of the remaining elements is unaffected. */
  lemma {:induction false} WithoutDedup(xs: seq<string>, x: string)
    ensures Without(Dedup(xs), x) == Dedup(Without(xs, x))
    decreases |xs|
  {
    if |xs| > 0 {
      var init := xs[..|xs| - 1];
      var y := xs[|xs| - 1];
      WithoutDedup(init, x);
      var d := Dedup(init);
      if y !in d {
        assert (d + [y])[..|d + [y]| - 1] == d;
      }
      if y != x {
        var w := Without(init, x);
        assert Without(xs, x) == w + [y];
        assert (w + [y])[..|w + [y]| - 1] == w;
      }
    }
  }

  // ------------------------------------------------------------------
  // The ignore file
  // ------------------------------------------------------------------

  /** ECMAScript line terminators, after which a multiline `^` matches. */
  predicate LineTerminator(c: char) {
    c == '\n' || c == '\r' || c as int == 0x2028 || c as int == 0x2029
  }

  /** A string with no line terminator in it. */
  predicate Plain(l: string) {
    forall i :: 0 <= i < |l| ==> !LineTerminator(l[i])
  }

  /** Length of the run of characters other than CR and LF at the front. */
  function LineRun(t: string): (k: nat)
    ensures k <= |t|
    ensures forall i :: 0 <= i < k ==> t[i] != '\r' && t[i] != '\n'
    ensures k < |t| ==> t[k] == '\r' || t[k] == '\n'
    decreases |t|
  {
    if |t| == 0 || t[0] == '\r' || t[0] == '\n' then 0 else 1 + LineRun(t[1..])
  }

  /** Length of a match of `#[^\r\n]+\r?\n` at the front of `t`, 0 when
      there is none: a `#`, at least one more character on the line, and the
      line's end. */
  function CommentLen(t: string): (k: nat)
    ensures k <= |t|
    ensures k > 0 ==> k >= 3 && t[0] == '#' && t[k - 1] == '\n'
  {
    if |t| == 0 || t[0] != '#' then 0
    else
      var n := LineRun(t[1..]);
      var e := 1 + n;
      if n == 0 then 0
      else if e < |t| && t[e] == '\n' then e + 1
      else if e + 1 < |t| && t[e] == '\r' && t[e + 1] == '\n' then e + 2
      else 0
  }

  /** The rest `t` of the text after `replace(/^#[^\r\n]+\r?\n/gm, '')`;
      `atStart` says whether `t` begins a line of the original text. */
  function Strip(t: string, atStart: bool): (r: string)
    ensures |r| <= |t|
    decreases |t|
  {
    if |t| == 0 then ""
    else if atStart && CommentLen(t) > 0 then Strip(t[CommentLen(t)..], true)
    else [t[0]] + Strip(t[1..], LineTerminator(t[0]))
  }

  function StripComments(text: string): string {
    Strip(text, true)
  }

  /** Index of the first line feed, or the length. */
  function LfIndex(s: string): (k: nat)
    ensures k <= |s|
    ensures forall i :: 0 <= i < k ==> s[i] != '\n'
    ensures k < |s| ==> s[k] == '\n'
    decreases |s|
  {
    if |s| == 0 || s[0] == '\n' then 0 else 1 + LfIndex(s[1..])
  }

  /** `s.split(/\r?\n/)`: pieces between line feeds, each without the
      carriage return that belongs to its separator. */
  function SplitLines(s: string): (r: seq<string>)
    ensures |r| >= 1
    ensures forall i :: 0 <= i < |r| ==> '\n' !in r[i]
    decreases |s|
  {
    var i := LfIndex(s);
    if i == |s| then
      [s]
    else
      var piece := if i > 0 && s[i - 1] == '\r' then s[..i - 1] else s[..i];
      [piece] + SplitLines(s[i + 1..])
  }

  /** One line of an ignore file with its terminator: `\r\n` when `crlf`,
      `\n` otherwise. */
  datatype Line = Line(text: string, crlf: bool)

  function Eol(crlf: bool): string {
    if crlf then "\r\n" else "\n"
  }

  /** The text of a file whose every line is terminated. */
  function Terminated(ls: seq<Line>): string
    decreases |ls|
  {
    if |ls| == 0 then "" else ls[0].text + Eol(ls[0].crlf) + Terminated(ls[1..])
  }

  /** The lines without their terminators. */
  function Texts(ls: seq<Line>): (r: seq<string>)
    ensures |r| == |ls|
    ensures forall i :: 0 <= i < |ls| ==> r[i] == ls[i].text
    decreases |ls|
  {
    if |ls| == 0 then [] else [ls[0].text] + Texts(ls[1..])
  }

  predicate PlainLines(ls: seq<Line>) {
    forall i :: 0 <= i < |ls| ==> Plain(ls[i].text)
  }

  /** Splitting a file of plain lines, with any mix of `\n` and `\r\n`
      terminators, yields the lines, then the empty piece after the final
      terminator. */
  lemma {:induction false} SplitTerminated(ls: seq<Line>)
    requires PlainLines(ls)
    ensures SplitLines(Terminated(ls)) == Texts(ls) + [""]
    decreases |ls|
  {
    if |ls| > 0 {
      PlainLinesTail(ls);
      SplitTerminated(ls[1..]);
      SplitTerminatedStep(ls);
      AppendEmpty(ls[0].text, Texts(ls[1..]));
    }
  }

  lemma SplitTerminatedStep(ls: seq<Line>)
    requires PlainLines(ls) && |ls| > 0
    ensures SplitLines(Terminated(ls)) == [ls[0].text] + SplitLines(Terminated(ls[1..]))
    ensures Texts(ls) == [ls[0].text] + Texts(ls[1..])
  {
    PlainLinesTail(ls);
    SplitLinesStep(ls[0].text, ls[0].crlf, Terminated(ls[1..]));
  }

  lemma AppendEmpty(x: string, T: seq<string>)
    ensures [x] + (T + [""]) == ([x] + T) + [""]
  {
  }

  lemma PlainLinesTail(ls: seq<Line>)
    requires PlainLines(ls) && |ls| > 0
    ensures Plain(ls[0].text) && PlainLines(ls[1..])
  {
    assert forall i :: 0 <= i < |ls| - 1 ==> ls[1..][i] == ls[i + 1];
  }

  /** The facts about a plain line followed by its terminator that the
      lemmas below share. */
  lemma LineLayout(l: string, crlf: bool, rest: string)
    requires Plain(l)
    ensures var t := l + Eol(crlf) + rest;
      && |t| == |l| + |Eol(crlf)| + |rest|
      && (forall i :: 0 <= i < |l| ==> t[i] == l[i])
      && t[|l|] == (if crlf then '\r' else '\n')
      && (crlf ==> t[|l| + 1] == '\n')
      && t[..|l|] == l
      && t[|l| + |Eol(crlf)|..] == rest
  {
  }

  /** A plain line and its terminator split off as one piece. */
  lemma SplitLinesStep(l: string, crlf: bool, rest: string)
    requires Plain(l)
    ensures SplitLines(l + Eol(crlf) + rest) == [l] + SplitLines(rest)
  {
    var t := l + Eol(crlf) + rest;
    LineLayout(l, crlf, rest);
    var k := if crlf then |l| + 1 else |l|;
    assert LfIndex(t) == k;
    assert k > 0 && t[k - 1] == '\r' <==> crlf;
    assert t[k + 1..] == rest;
  }

  /** A line `replace` removes: `#` followed by at least one character. */
  predicate IsComment(l: string) {
    |l| >= 2 && l[0] == '#'
  }

  function Uncommented(ls: seq<Line>): (r: seq<Line>)
    ensures forall l :: l in r <==> l in ls && !IsComment(l.text)
    decreases |ls|
  {
    if |ls| == 0 then []
    else
      assert ls == [ls[0]] + ls[1..];
      (if IsComment(ls[0].text) then [] else [ls[0]]) + Uncommented(ls[1..])
  }

  /** The texts of the kept lines are exactly the non-comment texts. */
  lemma {:induction false} TextsUncommented(ls: seq<Line>)
    ensures forall y :: y in Texts(Uncommented(ls)) <==> y in Texts(ls) && !IsComment(y)
    decreases |ls|
  {
    if |ls| > 0 {
      TextsUncommented(ls[1..]);
      var u := Uncommented(ls[1..]);
      assert Texts(ls) == [ls[0].text] + Texts(ls[1..]);
      if !IsComment(ls[0].text) {
        assert Uncommented(ls) == [ls[0]] + u;
        assert Texts([ls[0]] + u) == [ls[0].text] + Texts(u) by {
          assert ([ls[0]] + u)[1..] == u;
        }
      }
    }
  }

  lemma {:induction false} StripPlain(l: string, x: string)
    requires Plain(l)
    ensures Strip(l + x, false) == l + Strip(x, false)
    decreases |l|
  {
    if |l| > 0 {
      assert (l + x)[0] == l[0];
      assert (l + x)[1..] == l[1..] + x;
      StripPlain(l[1..], x);
      assert [l[0]] + l[1..] == l;
    } else {
      assert l + x == x;
    }
  }

  /** The run after the `#` of a plain line reaches its terminator. */
  lemma LineRunOfLine(l: string, crlf: bool, rest: string)
    requires Plain(l) && |l| > 0
    ensures LineRun((l + Eol(crlf) + rest)[1..]) == |l| - 1
  {
    var u := (l + Eol(crlf) + rest)[1..];
    LineLayout(l, crlf, rest);
    assert forall i :: 0 <= i < |l| - 1 ==> u[i] == l[i + 1];
    assert u[|l| - 1] == '\r' || u[|l| - 1] == '\n';
  }

  /** A comment line is matched, terminator included, whichever of `\n` and
      `\r\n` ends it. */
  lemma CommentLineMatched(l: string, crlf: bool, rest: string)
    requires Plain(l) && IsComment(l)
    ensures CommentLen(l + Eol(crlf) + rest) == |l| + |Eol(crlf)|
  {
    LineRunOfLine(l, crlf, rest);
    LineLayout(l, crlf, rest);
  }

  lemma StripCommentLine(l: string, crlf: bool, rest: string)
    requires Plain(l) && IsComment(l)
    ensures Strip(l + Eol(crlf) + rest, true) == Strip(rest, true)
  {
    CommentLineMatched(l, crlf, rest);
    LineLayout(l, crlf, rest);
  }

  /** A terminator is kept, and the next line starts after it. */
  lemma StripEol(crlf: bool, rest: string, atStart: bool)
    ensures Strip(Eol(crlf) + rest, atStart) == Eol(crlf) + Strip(rest, true)
  {
    if crlf {
      StripCr(rest, atStart);
    } else {
      StripLf(rest, atStart);
    }
  }

  lemma StripLf(rest: string, atStart: bool)
    ensures Strip("\n" + rest, atStart) == "\n" + Strip(rest, true)
  {
    StripCons('\n', rest, atStart);
  }

  lemma StripCr(rest: string, atStart: bool)
    ensures Strip("\r\n" + rest, atStart) == "\r\n" + Strip(rest, true)
  {
    var S := Strip(rest, true);
    var t := "\n" + rest;
    assert Strip(t, true) == "\n" + S by {
      StripCons('\n', rest, true);
    }
    assert Strip(['\r'] + t, atStart) == ['\r'] + Strip(t, true) by {
      StripCons('\r', t, atStart);
    }
    assert "\r\n" + rest == ['\r'] + t;
    assert ['\r'] + ("\n" + S) == "\r\n" + S;
  }

  lemma StripCons(c: char, x: string, atStart: bool)
    requires c != '#'
    ensures Strip([c] + x, atStart) == [c] + Strip(x, LineTerminator(c))
  {
    StripStep([c] + x, atStart);
    assert ([c] + x)[1..] == x;
  }

  /** Where the text does not start with `#`, its first character is kept. */
  lemma StripStep(t: string, atStart: bool)
    requires |t| > 0 && t[0] != '#'
    ensures Strip(t, atStart) == [t[0]] + Strip(t[1..], LineTerminator(t[0]))
  {
  }

  /** A line that is not a comment does not match the comment pattern. */
  lemma TextLineNoMatch(l: string, crlf: bool, rest: string)
    requires Plain(l) && !IsComment(l)
    ensures CommentLen(l + Eol(crlf) + rest) == 0
  {
    LineLayout(l, crlf, rest);
    if |l| > 0 && l[0] == '#' {
      LineRunOfLine(l, crlf, rest);
    }
  }

  lemma StripTextLine(l: string, crlf: bool, rest: string)
    requires Plain(l) && !IsComment(l)
    ensures Strip(l + Eol(crlf) + rest, true) == l + Eol(crlf) + Strip(rest, true)
  {
    var e := Eol(crlf);
    var S := Strip(rest, true);
    if |l| == 0 {
      assert l + e + rest == e + rest && l + e + S == e + S;
      StripEol(crlf, rest, true);
    } else {
      TextLineNoMatch(l, crlf, rest);
      assert l + e + rest == l + (e + rest);
      StripTextLineStep(l, e + rest);
      StripPlain(l[1..], e + rest);
      StripEol(crlf, rest, false);
      ConsLine(l, e, S);
    }
  }

  lemma ConsLine(l: string, e: string, S: string)
    requires |l| > 0
    ensures [l[0]] + (l[1..] + (e + S)) == l + e + S
  {
    assert [l[0]] + l[1..] == l;
  }

  lemma StripTextLineStep(l: string, x: string)
    requires Plain(l) && |l| > 0
    requires CommentLen(l + x) == 0
    ensures Strip(l + x, true) == [l[0]] + Strip(l[1..] + x, false)
  {
    var t := l + x;
    assert t[0] == l[0] && !LineTerminator(t[0]);
    assert t[1..] == l[1..] + x;
    StripKeep(t);
  }

  /** Where no comment matches, the first character is kept. */
  lemma StripKeep(t: string)
    requires |t| > 0 && CommentLen(t) == 0
    ensures Strip(t, true) == [t[0]] + Strip(t[1..], LineTerminator(t[0]))
  {
  }

  /** Stripping a file of plain lines, with any mix of `\n` and `\r\n`
      terminators, removes exactly its comment lines. */
  lemma {:induction false} StripTerminated(ls: seq<Line>)
    requires PlainLines(ls)
    ensures StripComments(Terminated(ls)) == Terminated(Uncommented(ls))
    decreases |ls|
  {
    if |ls| > 0 {
      var l := ls[0];
      var rest := Terminated(ls[1..]);
      assert Terminated(ls) == l.text + Eol(l.crlf) + rest;
      StripTerminated(ls[1..]);
      if IsComment(l.text) {
        StripCommentLine(l.text, l.crlf, rest);
        assert Uncommented(ls) == Uncommented(ls[1..]);
      } else {
        StripTextLine(l.text, l.crlf, rest);
        var u := Uncommented(ls);
        assert u == [l] + Uncommented(ls[1..]);
        assert u[0] == l && u[1..] == Uncommented(ls[1..]);
        assert Terminated(u) == l.text + Eol(l.crlf) + Terminated(Uncommented(ls[1..]));
      }
    }
  }

  /** The comment pattern needs the line feed, so a comment on a last line
      without one is kept as an entry. */
  lemma UnterminatedCommentKept(l: string)
    requires Plain(l) && IsComment(l)
    ensures StripComments(l) == l
    ensures SplitLines(StripComments(l)) == [l]
  {
    assert LineRun(l[1..]) == |l| - 1;
    assert CommentLen(l) == 0;
    StripPlain(l[1..], "");
    assert l[1..] + "" == l[1..];
    assert [l[0]] + l[1..] == l;
    assert LfIndex(l) == |l|;
  }

  /** The outcome of `existsSync` and `lstatSync(...).isFile()` for the
      ignore path. A symbolic link is never a regular file for `lstat`. */
  datatype IgnoreFile = Missing | NotRegular | Regular(text: string)

  /** The entries an ignore file contributes, before de-duplication. */
  function IgnoreEntries(text: string): seq<string> {
    SplitLines(StripComments(text))
  }

  /** `getExcludeMergedWithIgnoreFile(exclude, ignorePath)`: the exclude list
      unchanged unless the ignore file is a regular file; otherwise its
      entries then the excludes, each once at its first occurrence, without
      the empty string. */
  function MergeIgnore(exclude: seq<string>, file: IgnoreFile): (r: seq<string>)
    ensures !file.Regular? ==> r == exclude
    ensures file.Regular? ==> NoDup(r) && "" !in r
    ensures file.Regular? ==>
      forall y :: y in r <==> y != "" && (y in IgnoreEntries(file.text) || y in exclude)
    ensures file.Regular? ==> FirstOrder(r, Without(IgnoreEntries(file.text) + exclude, ""))
  {
    match file
    case Regular(text) =>
      var all := IgnoreEntries(text) + exclude;
      WithoutDedup(all, "");
      Without(Dedup(all), "")
    case _ => exclude
  }

  /** Every entry taken from the ignore file precedes every entry that only
      the command line supplied. */
  lemma IgnoreEntriesFirst(exclude: seq<string>, text: string)
    ensures var r := MergeIgnore(exclude, Regular(text));
      forall i, j :: 0 <= i < |r| && 0 <= j < |r| && r[i] in IgnoreEntries(text) && r[j] !in IgnoreEntries(text) ==> i < j
  {
    var r := MergeIgnore(exclude, Regular(text));
    var e := Without(IgnoreEntries(text), "");
    var w := Without(IgnoreEntries(text) + exclude, "");
    WithoutAppend(IgnoreEntries(text), exclude, "");
    assert w == e + Without(exclude, "");
    forall i, j | 0 <= i < |r| && 0 <= j < |r| && r[i] in IgnoreEntries(text) && r[j] !in IgnoreEntries(text)
      ensures i < j
    {
      assert r[i] in r && r[j] in r;
      assert r[i] in e && r[j] !in e && r[j] in w;
      FirstIndexSplit(e, Without(exclude, ""), r[i], r[j]);
      FirstOrderMonotone(r, w, i, j);
    }
  }

  /** Positions in a list kept in first-occurrence order follow the first
      occurrences. */
  lemma FirstOrderMonotone(r: seq<string>, w: seq<string>, i: nat, j: nat)
    requires FirstOrder(r, w) && i < |r| && j < |r| && r[i] in w && r[j] in w
    requires FirstIndex(w, r[i]) < FirstIndex(w, r[j])
    ensures i < j
  {
  }

  /** In `e + f`, an element of `e` occurs first before any element that
      only `f` holds. */
  lemma FirstIndexSplit(e: seq<string>, f: seq<string>, x: string, y: string)
    requires x in e && y !in e && y in e + f
    ensures FirstIndex(e + f, x) < |e| <= FirstIndex(e + f, y)
  {
    var w := e + f;
    var k := FirstIndex(e, x);
    assert w[k] == x;
    assert forall n :: 0 <= n < |e| ==> w[n] == e[n];
  }

  /** For a file of plain lines the merged list holds exactly its non-empty,
      non-comment lines and the non-empty excludes. */
  lemma MergeTerminated(exclude: seq<string>, ls: seq<Line>)
    requires PlainLines(ls)
    ensures forall y :: y in MergeIgnore(exclude, Regular(Terminated(ls))) <==>
      y != "" && ((y in Texts(ls) && !IsComment(y)) || y in exclude)
  {
    StripTerminated(ls);
    var u := Uncommented(ls);
    forall i | 0 <= i < |u| ensures Plain(u[i].text) {
      assert u[i] in ls;
      var k :| 0 <= k < |ls| && ls[k] == u[i];
    }
    SplitTerminated(u);
    TextsUncommented(ls);
  }

  // ------------------------------------------------------------------
  // --filter
  // ------------------------------------------------------------------

  /** `\w`: ASCII letters, digits and the underscore. */
  predicate WordChar(c: char) {
    'a' <= c <= 'z' || 'A' <= c <= 'Z' || '0' <= c <= '9' || c == '_'
  }

  predicate Word(w: string) {
    forall i :: 0 <= i < |w| ==> WordChar(w[i])
  }

  /** The word characters of `s`, in order. */
  function Words(s: string): (r: string)
    ensures Word(r)
    decreases |s|
  {
    if |s| == 0 then "" else (if WordChar(s[0]) then [s[0]] else "") + Words(s[1..])
  }

  function Concat(ws: seq<string>): string
    decreases |ws|
  {
    if |ws| == 0 then "" else ws[0] + Concat(ws[1..])
  }

  /** Length of the run of non-word characters at the front. */
  function NonWordRun(t: string): (k: nat)
    ensures k <= |t|
    ensures forall i :: 0 <= i < k ==> !WordChar(t[i])
    ensures k < |t| ==> WordChar(t[k])
    decreases |t|
  {
    if |t| == 0 || WordChar(t[0]) then 0 else 1 + NonWordRun(t[1..])
  }

  lemma {:induction false} WordsSkip(s: string, k: nat)
    requires k <= |s| && forall i :: 0 <= i < k ==> !WordChar(s[i])
    ensures Words(s) == Words(s[k..])
    decreases k
  {
    if k > 0 {
      assert s[1..][k - 1..] == s[k..];
      WordsSkip(s[1..], k - 1);
    }
  }

  /** `s.split(/\W+/)`: the pieces between maximal runs of non-word
      characters. Every piece is a word; a piece that starts the string with
      a word character is not empty. */
  function SplitNonWord(s: string): (r: seq<string>)
    ensures |r| >= 1
    ensures forall i :: 0 <= i < |r| ==> Word(r[i])
    ensures |s| > 0 && WordChar(s[0]) ==> r[0] != ""
    decreases |s|
  {
    if |s| == 0 then [""]
    else if WordChar(s[0]) then
      var rest := SplitNonWord(s[1..]);
      [[s[0]] + rest[0]] + rest[1..]
    else
      [""] + SplitNonWord(s[NonWordRun(s)..])
  }

  /** Only the first and the last piece can be empty, and together the
      pieces hold every word character of `s`, in order. */
  lemma {:induction false} SplitNonWordPieces(s: string)
    ensures var r := SplitNonWord(s); forall i :: 0 < i < |r| - 1 ==> r[i] != ""
    ensures Concat(SplitNonWord(s)) == Words(s)
    decreases |s|
  {
    if |s| > 0 {
      var r := SplitNonWord(s);
      if WordChar(s[0]) {
        var rest := SplitNonWord(s[1..]);
        SplitNonWordPieces(s[1..]);
        assert r[1..] == rest[1..];
        assert Concat(rest) == rest[0] + Concat(rest[1..]);
        assert Concat(r) == ([s[0]] + rest[0]) + Concat(rest[1..]);
      } else {
        var k := NonWordRun(s);
        var tail := SplitNonWord(s[k..]);
        SplitNonWordPieces(s[k..]);
        WordsSkip(s, k);
        assert r[1..] == tail;
        assert forall i :: 1 < i < |r| - 1 ==> r[i] == tail[i - 1];
      }
    }
  }

  /** `ws.join(sep)`. */
  function JoinWith(ws: seq<string>, sep: string): string
    requires |ws| >= 1
    decreases |ws|
  {
    if |ws| == 1 then ws[0] else ws[0] + sep + JoinWith(ws[1..], sep)
  }

  lemma {:induction false} SplitWordPrefix(w: string, x: string)
    requires Word(w)
    ensures SplitNonWord(w + x) == [w + SplitNonWord(x)[0]] + SplitNonWord(x)[1..]
    decreases |w|
  {
    if |w| == 0 {
      var r := SplitNonWord(x);
      assert w + x == x && w + r[0] == r[0];
      assert r == [r[0]] + r[1..];
    } else {
      assert (w + x)[0] == w[0];
      assert (w + x)[1..] == w[1..] + x;
      SplitWordPrefix(w[1..], x);
      assert [w[0]] + (w[1..] + SplitNonWord(x)[0]) == w + SplitNonWord(x)[0];
    }
  }

  lemma SplitSeparatorPrefix(sep: string, t: string)
    requires sep != "" && forall i :: 0 <= i < |sep| ==> !WordChar(sep[i])
    requires t == "" || WordChar(t[0])
    ensures SplitNonWord(sep + t) == [""] + SplitNonWord(t)
  {
    var s := sep + t;
    assert forall i :: 0 <= i < |sep| ==> s[i] == sep[i];
    assert |sep| < |s| ==> s[|sep|] == t[0];
    assert NonWordRun(s) == |sep|;
    assert s[|sep|..] == t;
  }

  lemma {:induction false} JoinStartsWithWord(ws: seq<string>, sep: string)
    requires |ws| >= 1 && ws[0] != ""
    ensures JoinWith(ws, sep) != "" && JoinWith(ws, sep)[0] == ws[0][0]
  {
  }

  /** A list of event names joined by any non-word separator splits back
      into the same list: `"add,change"` gives `["add", "change"]`. */
  lemma {:induction false} SplitJoinWords(ws: seq<string>, sep: string)
    requires |ws| >= 1 && forall i :: 0 <= i < |ws| ==> ws[i] != "" && Word(ws[i])
    requires sep != "" && forall i :: 0 <= i < |sep| ==> !WordChar(sep[i])
    ensures SplitNonWord(JoinWith(ws, sep)) == ws
    decreases |ws|
  {
    if |ws| == 1 {
      SplitWordPrefix(ws[0], "");
      assert ws[0] + "" == ws[0];
    } else {
      var j := JoinWith(ws[1..], sep);
      JoinStartsWithWord(ws[1..], sep);
      SplitJoinWords(ws[1..], sep);
      SplitJoinStep(ws[0], sep, j);
      assert JoinWith(ws, sep) == ws[0] + sep + j;
      assert ws == [ws[0]] + ws[1..];
    }
  }

  /** A word followed by a separator and text that starts with a word
      character splits into the word, then the pieces of the text. */
  lemma SplitJoinStep(w: string, sep: string, t: string)
    requires Word(w)
    requires sep != "" && forall i :: 0 <= i < |sep| ==> !WordChar(sep[i])
    requires t == "" || WordChar(t[0])
    ensures SplitNonWord(w + sep + t) == [w] + SplitNonWord(t)
  {
    SplitSeparatorPrefix(sep, t);
    SplitWordPrefix(w, sep + t);
    assert w + sep + t == w + (sep + t);
    assert w + "" == w;
  }

  // ------------------------------------------------------------------
  // The script
  // ------------------------------------------------------------------

  /** The value `minimist` gives `--exclude`: a boolean (`--no-exclude`), a
      string, several strings, or nothing. */
  datatype ExcludeArg = ExcludeFlag(on: bool) | ExcludeText(glob: string) | ExcludeList(globs: seq<string>) | ExcludeUnset

  /** The value `minimist` gives `--filter`. */
  datatype FilterArg = FilterUnset | FilterFlag(on: bool) | FilterText(text: string) | FilterList(kinds: seq<string>)

  datatype Argv = Argv(
    positional: seq<string>,
    help: bool,
    afterDashes: seq<string>,
    exclude: ExcludeArg,
    ignorePath: Option<string>,
    outpipe: Option<string>,
    filter: FilterArg)

  /** The arguments of `onchange(matches, command, args, options)`; `filter`
      is `None` for every falsy value the option can hold. */
  datatype Call = Call(
    matches: seq<string>,
    command: Option<string>,
    args: seq<string>,
    exclude: seq<string>,
    filter: Option<seq<string>>,
    ignorePath: string)

  datatype Outcome = Watch(call: Call) | Exit(code: nat) | Throw(message: string)

  const DefaultIgnorePath := "./.onchangeignore"

  predicate Truthy(o: Option<string>) {
    o.Some? && o.value != ""
  }

  /** `args.shift()` on the words after `--`. */
  function SplitCommand(words: seq<string>): (r: (Option<string>, seq<string>))
    ensures |words| == 0 ==> r == (None, [])
    ensures |words| > 0 ==> r.0 == Some(words[0]) && [words[0]] + r.1 == words
  {
    if |words| == 0 then (None, []) else (Some(words[0]), words[1..])
  }

  /** `typeof exclude === 'boolean' ? [] : arrify(exclude)`. */
  function ExcludeGlobs(e: ExcludeArg): (r: seq<string>)
    ensures e.ExcludeFlag? || e.ExcludeUnset? ==> r == []
    ensures e.ExcludeText? ==> r == [e.glob]
    ensures e.ExcludeList? ==> r == e.globs
  {
    match e
    case ExcludeFlag(_) => []
    case ExcludeText(g) => [g]
    case ExcludeList(gs) => gs
    case ExcludeUnset => []
  }

  /** `filter && (Array.isArray(filter) ? filter : filter.split(/\W+/))`;
      `true.split` is not a function, so a bare `--filter` throws. */
  function FilterKinds(f: FilterArg): (r: Result<Option<seq<string>>, string>)
    ensures r.Err? <==> f == FilterFlag(true)
    ensures r == Ok(None) <==> f in {FilterUnset, FilterFlag(false), FilterText("")}
    ensures f.FilterList? ==> r == Ok(Some(f.kinds))
    ensures f.FilterText? && f.text != "" ==>
      r.Ok? && r.value.Some? && |r.value.value| >= 1 && forall i :: 0 <= i < |r.value.value| ==> Word(r.value.value[i])
  {
    match f
    case FilterUnset => Ok(None)
    case FilterFlag(on) => if on then Err("TypeError: argv.filter.split is not a function") else Ok(None)
    case FilterText(t) => if t == "" then Ok(None) else Ok(Some(SplitNonWord(t)))
    case FilterList(ks) => Ok(Some(ks))
  }

  /** The whole script: the usage text without patterns or with `--help`,
      then the options (where a bare `--filter` throws), then exit code 1
      when neither a command nor an outpipe is given. */
  function Run(a: Argv, files: string -> IgnoreFile): (r: Outcome)
    ensures |a.positional| == 0 || a.help ==> r == Exit(0)
    ensures |a.positional| > 0 && !a.help ==> (r.Throw? <==> a.filter == FilterFlag(true))
    ensures |a.positional| > 0 && !a.help && a.filter != FilterFlag(true) ==>
      (r == Exit(1) <==> (|a.afterDashes| == 0 || a.afterDashes[0] == "") && !Truthy(a.outpipe))
    ensures r.Watch? ==> r.call.matches == a.positional
    ensures r.Watch? ==> (r.call.command, r.call.args) == SplitCommand(a.afterDashes)
    ensures r.Watch? ==> Truthy(r.call.command) || Truthy(a.outpipe)
    ensures r.Watch? ==> r.call.ignorePath == (match a.ignorePath case Some(p) => p case None => DefaultIgnorePath)
    ensures r.Watch? ==> r.call.exclude == MergeIgnore(ExcludeGlobs(a.exclude), files(r.call.ignorePath))
    ensures r.Watch? && a.filter.FilterText? && a.filter.text != "" ==> r.call.filter == Some(SplitNonWord(a.filter.text))
    ensures r.Watch? && a.filter.FilterList? ==> r.call.filter == Some(a.filter.kinds)
    ensures r.Watch? && a.filter in {FilterUnset, FilterFlag(false), FilterText("")} ==> r.call.filter == None
  {
    if |a.positional| == 0 || a.help then Exit(0)
    else
      var (command, args) := SplitCommand(a.afterDashes);
      var path := match a.ignorePath case Some(p) => p case None => DefaultIgnorePath;
      var exclude := MergeIgnore(ExcludeGlobs(a.exclude), files(path));
      match FilterKinds(a.filter)
      case Err(e) => Throw(e)
      case Ok(filter) =>
        if !Truthy(command) && !Truthy(a.outpipe) then Exit(1)
        else Watch(Call(a.positional, command, args, exclude, filter, path))
  }

  /** `--no-exclude` drops the default glob, leaving only the ignore file. */
  lemma NoExcludeKeepsIgnoreFile(a: Argv, files: string -> IgnoreFile)
    requires a.exclude == ExcludeFlag(false)
    requires Run(a, files).Watch?
    ensures files(Run(a, files).call.ignorePath).Regular? ==>
      forall y :: y in Run(a, files).call.exclude <==> y != "" && y in IgnoreEntries(files(Run(a, files).call.ignorePath).text)
    ensures !files(Run(a, files).call.ignorePath).Regular? ==> Run(a, files).call.exclude == []
  {
  }
}
