/** The support-chat bridge: quoting the arguments of the `openclaw` command
    line for the shell, and mapping what the command does to a reply or to
    one of two error codes. Running the command and parsing its JSON are
    parameters. */
module Chat {
  import opened Wrappers
  import opened Text

  // ---- Shell quoting ----

  /** Every `'` of `s` replaced by `'\''` (close the quotes, an escaped
      quote, reopen), every other character kept. */
  function QuoteBody(s: string): string {
    if s == [] then [] else QuoteChar(s[0]) + QuoteBody(s[1..])
  }

  function QuoteChar(c: char): string {
    if c == '\'' then "'\\''" else [c]
  }

  /** `escapeShellArg(arg)`: the quote-replaced text between single quotes. */
  function EscapeShellArg(s: string): (r: string)
    ensures |r| >= 2 && r[0] == '\'' && r[|r| - 1] == '\''
  {
    "'" + QuoteBody(s) + "'"
  }

  lemma {:induction false} QuoteBodyLength(s: string)
    ensures |QuoteBody(s)| == |s| + 3 * Count(s, '\'')
  {
    if s != [] {
      QuoteBodyLength(s[1..]);
    }
  }

  /** The result is three characters longer for every quote, plus the two
      enclosing quotes. */
  lemma EscapeLength(s: string)
    ensures |EscapeShellArg(s)| == |s| + 2 + 3 * Count(s, '\'')
  {
    QuoteBodyLength(s);
  }

  lemma {:induction false} QuoteBodyWithoutQuotes(s: string)
    requires Count(s, '\'') == 0
    ensures QuoteBody(s) == s
  {
    if s != [] {
      QuoteBodyWithoutQuotes(s[1..]);
    }
  }

  /** Text without a quote is only wrapped. */
  lemma EscapeWithoutQuotes(s: string)
    requires Count(s, '\'') == 0
    ensures EscapeShellArg(s) == "'" + s + "'"
  {
    QuoteBodyWithoutQuotes(s);
  }

  // ---- Quote removal (section 2.2 of the POSIX.1-2017 Shell Command Language) ----

  /** Characters that, unquoted, would end the word or be expanded. */
  const SpecialChars: set<char> :=
    {' ', '\t', '\n', '|', '&', ';', '<', '>', '(', ')', '$', '`', '"', '*', '?', '[', '#', '~'}

  predicate Special(c: char) {
    c in SpecialChars
  }

  function Prepend(p: string, r: Option<string>): Option<string> {
    match r
    case None => None
    case Some(t) => Some(p + t)
  }

  /** The literal a single shell word stands for, read outside quotes: a
      backslash keeps the next character (section 2.2.1; a backslash-newline
      is removed), a `'` opens a quoted stretch, and a special character
      means the text is not one literal word. */
  function Unquote(w: string): Option<string>
    decreases |w|
  {
    if w == [] then Some([])
    else if w[0] == '\'' then InsideQuotes(w[1..])
    else if w[0] == '\\' then
      if |w| == 1 then None
      else if w[1] == '\n' then Unquote(w[2..])
      else Prepend([w[1]], Unquote(w[2..]))
    else if Special(w[0]) then None
    else Prepend([w[0]], Unquote(w[1..]))
  }

  /** Inside single quotes every character is literal up to the next `'`
      (section 2.2.2); an unclosed quote is an error. */
  function InsideQuotes(w: string): Option<string>
    decreases |w|
  {
    if w == [] then None
    else if w[0] == '\'' then Unquote(w[1..])
    else Prepend([w[0]], InsideQuotes(w[1..]))
  }

  lemma PrependTwice(p: string, q: string, r: Option<string>)
    ensures Prepend(p, Prepend(q, r)) == Prepend(p + q, r)
  {
    if r.Some? {
      assert p + (q + r.value) == (p + q) + r.value;
    }
  }

  /** An escaped quote inside quotes: close, `\\'`, reopen. */
  lemma EscapedQuote(rest: string)
    ensures InsideQuotes("'\\''" + rest) == Prepend("'", InsideQuotes(rest))
  {
    var w := "'\\''" + rest;
    var v := w[1..];
    assert w[0] == '\'' && v == "\\''" + rest;
    assert v[0] == '\\' && v[1] == '\'' && v[2..] == "'" + rest;
    assert Unquote(v) == Prepend([v[1]], Unquote(v[2..]));
    assert ("'" + rest)[0] == '\'' && ("'" + rest)[1..] == rest;
  }

  /** Any other character inside quotes is literal. */
  lemma PlainInsideQuotes(c: char, rest: string)
    requires c != '\''
    ensures InsideQuotes([c] + rest) == Prepend([c], InsideQuotes(rest))
  {
    assert ([c] + rest)[1..] == rest;
  }

  lemma QuoteBodyCons(s: string, t: string)
    requires s != []
    ensures QuoteBody(s) + "'" + t == QuoteChar(s[0]) + (QuoteBody(s[1..]) + "'" + t)
  {
  }

  lemma InsideQuoteBodyEmpty(t: string)
    ensures InsideQuotes(QuoteBody([]) + "'" + t) == Prepend([], Unquote(t))
  {
    assert QuoteBody([]) + "'" + t == "'" + t;
    assert ("'" + t)[1..] == t;
    if Unquote(t).Some? {
      assert [] + Unquote(t).value == Unquote(t).value;
    }
  }

  /** One quoted character stands for itself inside quotes. */
  lemma QuoteCharInside(c: char, rest: string)
    ensures InsideQuotes(QuoteChar(c) + rest) == Prepend([c], InsideQuotes(rest))
  {
    if c == '\'' {
      EscapedQuote(rest);
    } else {
      PlainInsideQuotes(c, rest);
    }
  }

  /** Inside the opening quote, the quoted body and the closing quote stand
      for the original text. */
  lemma {:induction false} InsideQuoteBody(s: string, t: string)
    ensures InsideQuotes(QuoteBody(s) + "'" + t) == Prepend(s, Unquote(t))
  {
    if s == [] {
      InsideQuoteBodyEmpty(t);
    } else {
      var rest := QuoteBody(s[1..]) + "'" + t;
      InsideQuoteBody(s[1..], t);
      QuoteBodyCons(s, t);
      QuoteCharInside(s[0], rest);
      PrependTwice([s[0]], s[1..], Unquote(t));
      assert [s[0]] + s[1..] == s;
    }
  }

  /** The shell reads the escaped argument back as exactly the original
      text, whatever it contains. */
  lemma UnquoteEscape(s: string)
    ensures Unquote(EscapeShellArg(s)) == Some(s)
  {
    var w := EscapeShellArg(s);
    assert w[1..] == QuoteBody(s) + "'" + [];
    InsideQuoteBody(s, []);
    assert s + [] == s;
  }

  // ---- The command and its outcome ----

  /** The command line `sendMessage` runs. */
  function Command(message: string, agentId: string, sessionId: string): string {
    "openclaw agent --message " + EscapeShellArg(message)
      + " --agent " + EscapeShellArg(agentId)
      + " --session-id " + EscapeShellArg(sessionId) + " --json"
  }

  /** The `code` property of what the command threw: a string, a number
      (an exit status), or none. */
  datatype ErrorCode = StrCode(s: string) | NumCode(n: int) | NoCode

  /** What `execAsync` does: reject with an error that has a code, or
      resolve with the standard output. */
  datatype ExecOutcome = ExecFailed(code: ErrorCode) | ExecDone(stdout: string)

  /** What `JSON.parse` makes of the text from the first `{`: a syntax
      error, or a value whose `result.payloads` is an array (listed by the
      `text` of each element, `None` when absent or not a string) or not. */
  datatype Parsed = SyntaxError | Value(payloads: Option<seq<Option<string>>>)

  datatype ChatError = OpenclawUnavailable | InternalError

  /** `stdout.indexOf(c)`. */
  function IndexOf(s: string, c: char): (r: Option<nat>)
    ensures r.None? <==> c !in s
    ensures r.Some? ==> r.value < |s| && s[r.value] == c && c !in s[..r.value]
  {
    if s == [] then None
    else if s[0] == c then Some(0)
    else
      match IndexOf(s[1..], c)
      case None => None
      case Some(j) =>
        assert s[..j + 1] == [s[0]] + s[1..][..j];
        Some(j + 1)
  }

  /** The body of the `try`: the reply, or the code an error there carries. */
  function Attempt(run: ExecOutcome, parse: string -> Parsed): (r: Result<string, ErrorCode>)
    ensures run.ExecFailed? ==> r == Err(run.code)
    ensures run.ExecDone? && r.Err? ==> r.error == NoCode || r.error == StrCode("INTERNAL_ERROR")
    ensures run.ExecDone? && '{' !in run.stdout ==> r == Err(StrCode("INTERNAL_ERROR"))
    ensures r.Ok? ==> run.ExecDone? && r.value != ""
  {
    match run
    case ExecFailed(code) => Err(code)
    case ExecDone(stdout) =>
      match IndexOf(stdout, '{')
      case None => Err(StrCode("INTERNAL_ERROR"))
      case Some(start) =>
        match parse(stdout[start..])
        case SyntaxError => Err(NoCode)
        case Value(payloads) =>
          if payloads.None? || |payloads.value| == 0 then Err(StrCode("INTERNAL_ERROR"))
          else if payloads.value[0].None? || payloads.value[0].value == "" then Err(StrCode("INTERNAL_ERROR"))
          else Ok(payloads.value[0].value)
  }

  /** The `catch`: a missing command or a timeout is "unavailable",
      everything else an internal error. */
  function MapError(code: ErrorCode): ChatError {
    if code == StrCode("ENOENT") || code == StrCode("ETIMEDOUT") then OpenclawUnavailable else InternalError
  }

  /** `sendMessage(sessionId, message)`; `exec` stands for running a command
      line with the 30-second timeout. */
  function SendMessage(agentId: string, sessionId: string, message: string,
                       exec: string -> ExecOutcome, parse: string -> Parsed): (r: Result<string, ChatError>)
    ensures r.Ok? ==> r.value != ""
    ensures exec(Command(message, agentId, sessionId)).ExecDone? ==> r != Err(OpenclawUnavailable)
  {
    match Attempt(exec(Command(message, agentId, sessionId)), parse)
    case Ok(text) => Ok(text)
    case Err(code) => Err(MapError(code))
  }

  /** Only a command that failed with `ENOENT` or `ETIMEDOUT` is reported as
      unavailable; every other failure, including output without JSON,
      unparsable JSON and missing or empty payloads, is an internal error;
      a reply is the non-empty text of the first payload. */
  lemma ErrorMapping(agentId: string, sessionId: string, message: string,
                     exec: string -> ExecOutcome, parse: string -> Parsed)
    ensures var run := exec(Command(message, agentId, sessionId));
      var r := SendMessage(agentId, sessionId, message, exec, parse);
      && (r == Err(OpenclawUnavailable) <==>
            run.ExecFailed? && (run.code == StrCode("ENOENT") || run.code == StrCode("ETIMEDOUT")))
      && (r.Ok? ==>
            && run.ExecDone? && '{' in run.stdout
            && var start := IndexOf(run.stdout, '{').value;
            && var p := parse(run.stdout[start..]);
            && p.Value? && p.payloads.Some? && |p.payloads.value| > 0
            && p.payloads.value[0] == Some(r.value) && r.value != "")
      && (run.ExecDone? && '{' !in run.stdout ==> r == Err(InternalError))
  {
  }
}
