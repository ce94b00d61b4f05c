/** The pure string helpers of `src/index.ts`: `quote` (escaping for a
    double-quoted shell word), `String.prototype.trim`, the `outpipe`
    template rewrite, and the exit message of a child process. */
module Text {
  import opened Wrappers

  // ------------------------------------------------------------------
  // quote
  // ------------------------------------------------------------------

  /** The characters `quote` prefixes with a backslash. */
  predicate Special(c: char) {
    c == '"' || c == '\\' || c == '$' || c == '`' || c == '!'
  }

  /** Number of special characters in `s`. */
  function CountSpecial(s: string): nat
    decreases |s|
  {
    if |s| == 0 then 0 else (if Special(s[0]) then 1 else 0) + CountSpecial(s[1..])
  }

  /** The strings in which every special character is introduced by a
      backslash: no bare `"`, `$`, `` ` `` or `!`, and no dangling `\`. */
  predicate Escaped(r: string)
    decreases |r|
  {
    if |r| == 0 then true
    else if r[0] == '\\' then |r| >= 2 && Escaped(r[2..])
    else !Special(r[0]) && Escaped(r[1..])
  }

  /** The body of `quote`: every special character gets a backslash in front. */
  function Escape(s: string): (r: string)
    ensures |r| == |s| + CountSpecial(s)
    ensures Escaped(r)
    decreases |s|
  {
    if |s| == 0 then ""
    else
      var head := if Special(s[0]) then ['\\', s[0]] else [s[0]];
      var rest := Escape(s[1..]);
      assert (head + rest)[|head|..] == rest;
      head + rest
  }

  /** Inverse of `Escape`: drops each escaping backslash; `None` for a
      string `Escape` cannot produce. */
  function Unescape(r: string): Option<string>
    decreases |r|
  {
    if |r| == 0 then Some("")
    else if r[0] == '\\' then
      if |r| < 2 then None
      else match Unescape(r[2..])
        case None => None
        case Some(t) => Some([r[1]] + t)
    else if Special(r[0]) then None
    else match Unescape(r[1..])
      case None => None
      case Some(t) => Some([r[0]] + t)
  }

  lemma {:induction false} UnescapeEscape(s: string)
    ensures Unescape(Escape(s)) == Some(s)
    decreases |s|
  {
    if |s| > 0 {
      UnescapeEscape(s[1..]);
      var rest := Escape(s[1..]);
      var e := Escape(s);
      assert [s[0]] + s[1..] == s;
      if Special(s[0]) {
        assert e == ['\\', s[0]] + rest;
        assert e[0] == '\\' && e[1] == s[0] && e[2..] == rest;
        assert Unescape(e) == Some([s[0]] + s[1..]);
      } else {
        assert e == [s[0]] + rest;
        assert e[0] == s[0] && e[1..] == rest;
        assert Unescape(e) == Some([s[0]] + s[1..]);
      }
    }
  }

  /** `quote(str)`: the input, escaped, between double quotes. */
  function Quote(s: string): (r: string)
    ensures |r| == |s| + CountSpecial(s) + 2
    ensures r[0] == '"' && r[|r| - 1] == '"'
    ensures Escaped(r[1..|r| - 1])
  {
    var r := "\"" + Escape(s) + "\"";
    assert r[1..|r| - 1] == Escape(s);
    r
  }

  /** Reads a quoted word back; `None` when `q` is not a quoted, escaped word. */
  function Unquote(q: string): Option<string> {
    if |q| >= 2 && q[0] == '"' && q[|q| - 1] == '"' then Unescape(q[1..|q| - 1]) else None
  }

  /** Unquoting recovers the input of `quote`, so `quote` loses nothing and
      never lets a special character through unescaped. */
  lemma UnquoteQuote(s: string)
    ensures Unquote(Quote(s)) == Some(s)
  {
    var q := Quote(s);
    assert q[1..|q| - 1] == Escape(s);
    UnescapeEscape(s);
  }

  lemma QuoteInjective(a: string, b: string)
    requires Quote(a) == Quote(b)
    ensures a == b
  {
    UnquoteQuote(a);
    UnquoteQuote(b);
  }

  /** The companion command `${quote(process.execPath)} ${quote(ECHO_JS_PATH)}`:
      two quoted words around one space, which unquote back to the two paths. */
  function EchoCommand(execPath: string, echoPath: string): (r: string)
    ensures var k := |Quote(execPath)|;
      && k < |r| && r[k] == ' '
      && Unquote(r[..k]) == Some(execPath)
      && Unquote(r[k + 1..]) == Some(echoPath)
    ensures r[0] == '"' && r[|r| - 1] == '"'
  {
    var a, b := Quote(execPath), Quote(echoPath);
    var r := a + " " + b;
    assert Unquote(r[..|a|]) == Some(execPath) by {
      assert r[..|a|] == a;
      UnquoteQuote(execPath);
    }
    assert Unquote(r[|a| + 1..]) == Some(echoPath) by {
      assert r[|a| + 1..] == b;
      UnquoteQuote(echoPath);
    }
    r
  }

  // ------------------------------------------------------------------
  // String.prototype.trim
  // ------------------------------------------------------------------

  /** ECMAScript WhiteSpace and LineTerminator code points, which `trim`
      removes from both ends. */
  predicate JsSpace(c: char) {
    var n := c as int;
    n == 0x09 || n == 0x0A || n == 0x0B || n == 0x0C || n == 0x0D || n == 0x20
    || n == 0xA0 || n == 0x1680 || (0x2000 <= n <= 0x200A) || n == 0x2028
    || n == 0x2029 || n == 0x202F || n == 0x205F || n == 0x3000 || n == 0xFEFF
  }

  /** Length of the leading run of white space. */
  function LeadingSpace(s: string): (k: nat)
    ensures k <= |s|
    ensures forall i :: 0 <= i < k ==> JsSpace(s[i])
    ensures k < |s| ==> !JsSpace(s[k])
    decreases |s|
  {
    if |s| == 0 || !JsSpace(s[0]) then 0 else 1 + LeadingSpace(s[1..])
  }

  /** Length of `s` without its trailing run of white space. */
  function WithoutTrailingSpace(s: string): (k: nat)
    ensures k <= |s|
    ensures forall i :: k <= i < |s| ==> JsSpace(s[i])
    ensures k > 0 ==> !JsSpace(s[k - 1])
    decreases |s|
  {
    if |s| == 0 || !JsSpace(s[|s| - 1]) then |s| else WithoutTrailingSpace(s[..|s| - 1])
  }

  datatype Span = Span(lo: nat, hi: nat)

  /** The part of `s` that `trim` keeps, as `s[lo..hi]`: everything outside is
      white space, and the kept part neither starts nor ends with white space. */
  function TrimSpan(s: string): (sp: Span)
    ensures sp.lo <= sp.hi <= |s|
    ensures forall i :: 0 <= i < sp.lo ==> JsSpace(s[i])
    ensures forall i :: sp.hi <= i < |s| ==> JsSpace(s[i])
    ensures sp.lo < sp.hi ==> !JsSpace(s[sp.lo]) && !JsSpace(s[sp.hi - 1])
    ensures sp.lo == sp.hi ==> sp.lo == 0 || sp.lo == |s|
  {
    var lo := LeadingSpace(s);
    var hi := lo + WithoutTrailingSpace(s[lo..]);
    Span(lo, hi)
  }

  function Trim(s: string): (r: string)
    ensures |r| <= |s|
    ensures r == "" || (!JsSpace(r[0]) && !JsSpace(r[|r| - 1]))
    ensures var sp := TrimSpan(s);
      && |r| == sp.hi - sp.lo
      && forall i :: sp.lo <= i < sp.hi ==> r[i - sp.lo] == s[i]
  {
    var sp := TrimSpan(s);
    s[sp.lo..sp.hi]
  }

  /** Trimming a trimmed string changes nothing. */
  lemma TrimIdempotent(s: string)
    ensures Trim(Trim(s)) == Trim(s)
  {
    var t := Trim(s);
    var sp := TrimSpan(t);
    if |t| > 0 {
      assert sp.lo == 0;
      assert sp.hi == |t|;
    }
  }

  /** Every non-blank character of `s` survives `trim`. */
  lemma TrimKeepsNonSpace(s: string, i: nat)
    requires i < |s| && !JsSpace(s[i])
    ensures TrimSpan(s).lo <= i < TrimSpan(s).hi
    ensures Trim(s)[i - TrimSpan(s).lo] == s[i]
  {
  }

  // ------------------------------------------------------------------
  // outpipeTemplate
  // ------------------------------------------------------------------

  /** The first non-blank character of the raw `outpipe` option is `|` or `>`. */
  predicate Redirects(raw: string) {
    var k := LeadingSpace(raw);
    k < |raw| && (raw[k] == '|' || raw[k] == '>')
  }

  /** The template source `outpipeTemplate` compiles: the trimmed option,
      prefixed with the echo helper command when it is a bare redirection. */
  function OutpipeSource(raw: string, execPath: string, echoPath: string): (r: string)
    ensures Redirects(raw) ==> r == EchoCommand(execPath, echoPath) + " " + Trim(raw)
    ensures !Redirects(raw) ==> r == Trim(raw)
  {
    var value := Trim(raw);
    if |value| > 0 && (value[0] == '|' || value[0] == '>') then
      EchoCommand(execPath, echoPath) + " " + value
    else
      value
  }

  /** A rewritten outpipe starts with the quoted interpreter path, so it is
      never mistaken for a second redirection. */
  lemma RewrittenOutpipeIsQuoted(raw: string, execPath: string, echoPath: string)
    requires Redirects(raw)
    ensures OutpipeSource(raw, execPath, echoPath)[0] == '"'
    ensures !Redirects(OutpipeSource(raw, execPath, echoPath))
  {
    var r := OutpipeSource(raw, execPath, echoPath);
    assert r[0] == EchoCommand(execPath, echoPath)[0];
    assert LeadingSpace(r) == 0;
  }

  // ------------------------------------------------------------------
  // exitMessage
  // ------------------------------------------------------------------

  function Digit(d: nat): char
    requires d < 10
  {
    "0123456789"[d]
  }

  predicate IsDigit(c: char) { '0' <= c <= '9' }

  predicate AllDigits(s: string) {
    forall i :: 0 <= i < |s| ==> IsDigit(s[i])
  }

  function DigitValue(c: char): nat
    requires IsDigit(c)
  {
    (c as int) - ('0' as int)
  }

  /** Decimal rendering of a natural number, as `${n}` prints it. */
  function NatToString(n: nat): (r: string)
    ensures |r| >= 1
    ensures AllDigits(r)
    ensures |r| > 1 ==> r[0] != '0'
    decreases n
  {
    if n < 10 then [Digit(n)] else NatToString(n / 10) + [Digit(n % 10)]
  }

  /** Value of a string of decimal digits. */
  function DigitsValue(s: string): nat
    requires AllDigits(s)
    decreases |s|
  {
    if |s| == 0 then 0
    else DigitsValue(s[..|s| - 1]) * 10 + DigitValue(s[|s| - 1])
  }

  lemma {:induction false} DigitsValueNatToString(n: nat)
    ensures DigitsValue(NatToString(n)) == n
    decreases n
  {
    if n >= 10 {
      var s := NatToString(n);
      var h := NatToString(n / 10);
      assert s[..|s| - 1] == h;
      DigitsValueNatToString(n / 10);
    }
  }

  /** `${code}` for an integer exit code. */
  function IntToString(i: int): string {
    if i < 0 then "-" + NatToString(-i) else NatToString(i)
  }

  /** Reads a decimal integer with an optional leading minus sign. */
  function ParseInt(s: string): Option<int> {
    if |s| > 1 && s[0] == '-' && AllDigits(s[1..]) then
      var v: int := 0 - (DigitsValue(s[1..]) as int);
      Some(v)
    else if |s| > 0 && AllDigits(s) then
      Some(DigitsValue(s))
    else
      None
  }

  lemma ParseIntToString(i: int)
    ensures ParseInt(IntToString(i)) == Some(i)
  {
    if i < 0 {
      var m: nat := -i;
      ParseNegative(m);
      assert IntToString(i) == "-" + NatToString(m);
    } else {
      ParseNatural(i);
      assert IntToString(i) == NatToString(i);
    }
  }

  lemma ParseNegative(m: nat)
    ensures ParseInt("-" + NatToString(m)) == Some(0 - m)
  {
    var n := NatToString(m);
    var s := "-" + n;
    assert s[1..] == n;
    DigitsValueNatToString(m);
  }

  lemma ParseNatural(m: nat)
    ensures ParseInt(NatToString(m)) == Some(m)
  {
    assert NatToString(m)[0] != '-';
    DigitsValueNatToString(m);
  }

  const CompletedPrefix := "completed with "
  const ExitedPrefix := "exited with "

  /** `exitMessage(code, signal)`: a signal report when the code is `null`,
      otherwise the code, which can be read back from the message. JavaScript
      prints a `null` signal as `null`. */
  function ExitMessage(code: Option<int>, signal: Option<string>): (r: string)
    ensures code.None? ==> r == ExitedPrefix + signal.GetOr("null")
    ensures code.Some? ==>
      |r| > |CompletedPrefix| && r[..|CompletedPrefix|] == CompletedPrefix
      && ParseInt(r[|CompletedPrefix|..]) == Some(code.value)
  {
    match code
    case None => ExitedPrefix + signal.GetOr("null")
    case Some(c) =>
      var r := CompletedPrefix + IntToString(c);
      assert r[|CompletedPrefix|..] == IntToString(c);
      ParseIntToString(c);
      r
  }
}
