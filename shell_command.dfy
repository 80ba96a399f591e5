/** The shell command builder: a command name and an argument list that
    grows through `extend` and the operators `>`, `<`, `>>`, `|`, `&` and
    `+`, rendered by `build` into one line for `/bin/bash`.

    Running the line is outside the model: `Execute` takes the run as a
    function from the built line to its exit code and output. */
module ShellCommands {
  import opened Common

  /** `ShellIORedirection`: a redirection such as `2>&1`, kept as an
      object in the argument list until the command is built. */
  datatype Redirection = Redirection(input: string, redir: string, out: string)

  /** `repr` of a redirection. */
  function Render(r: Redirection): (s: string)
    ensures |s| == |r.input| + |r.redir| + |r.out|
    ensures StartsWith(s, r.input) && EndsWith(s, r.out)
    ensures s[|r.input|..|r.input| + |r.redir|] == r.redir
  {
    r.input + r.redir + r.out
  }

  /** `error_to_out`: standard error sent where standard output goes. */
  function ErrorToOut(): (r: Redirection)
    ensures Render(r) == "2>&1"
  {
    Redirection("2", ">&", "1")
  }

  /** A positional argument as given: something whose `str` is a text, or
      a redirection object. */
  datatype Arg = Text(s: string) | Redirect(r: Redirection)

  /** What `str` makes of an item of the argument list. */
  function ItemText(a: Arg): string {
    match a
    case Text(s) => s
    case Redirect(r) => Render(r)
  }

  const Quotes: set<char> := {'"', '\''}

  /** `is_quoted` with its length test first: true when the text is at
      least two characters long and starts and ends with a quote (not
      necessarily the same one). */
  predicate IsQuoted(data: string) {
    |data| > 1 && data[0] in Quotes && data[|data| - 1] in Quotes
  }

  datatype ShellError = IndexError | RuntimeError

  /** `is_quoted` as written: the first and last characters are read
      before the length is looked at, so the empty text raises. */
  function IsQuotedAsWritten(data: string): (r: Result<bool, ShellError>)
    ensures r.Err? <==> data == []
    ensures r.Ok? ==> (r.value <==> IsQuoted(data))
  {
    if data == [] then Err(IndexError)
    else Ok(data[0] in Quotes && data[|data| - 1] in Quotes && |data| > 1)
  }

  /** Characters `shlex.quote` leaves bare: ASCII word characters and
      `@%+=:,./-`. */
  predicate IsSafe(c: char) {
    'a' <= c <= 'z' || 'A' <= c <= 'Z' || '0' <= c <= '9' || c in "_@%+=:,./-"
  }

  predicate AllSafe(s: string) {
    forall i :: 0 <= i < |s| ==> IsSafe(s[i])
  }

  /** Each single quote closed, given in double quotes, and reopened. */
  function Escape(s: string): string {
    if s == [] then []
    else (if s[0] == '\'' then "'\"'\"'" else [s[0]]) + Escape(s[1..])
  }

  /** `shlex.quote`: `''` for the empty text, the text itself when every
      character is safe, otherwise the text in single quotes. */
  function Quote(s: string): string {
    if s == [] then "''"
    else if AllSafe(s) then s
    else "'" + Escape(s) + "'"
  }

  /** How the shell reads one word: bare safe characters, single-quoted
      text taken literally, double-quoted text without `$`, backquote or
      backslash. `None` for anything else (a word break, an expansion, an
      unterminated quote). */
  datatype Mode = Bare | Single | Double

  function Prepend(p: string, o: Option<string>): Option<string> {
    if o.Some? then Some(p + o.value) else None
  }

  function Read(w: string, mode: Mode): Option<string>
    decreases |w|
  {
    if w == [] then (if mode == Bare then Some([]) else None)
    else if mode == Single then
      (if w[0] == '\'' then Read(w[1..], Bare) else Prepend([w[0]], Read(w[1..], Single)))
    else if mode == Double then
      (if w[0] == '"' then Read(w[1..], Bare)
       else if w[0] in "$`\\" then None
       else Prepend([w[0]], Read(w[1..], Double)))
    else if w[0] == '\'' then Read(w[1..], Single)
    else if w[0] == '"' then Read(w[1..], Double)
    else if IsSafe(w[0]) then Prepend([w[0]], Read(w[1..], Bare))
    else None
  }

  lemma {:induction false} SafeReadsBack(s: string)
    requires AllSafe(s)
    ensures Read(s, Bare) == Some(s)
    decreases |s|
  {
    if s != [] {
      assert AllSafe(s[1..]) by {
        forall i | 0 <= i < |s[1..]| ensures IsSafe(s[1..][i]) {
          assert s[1..][i] == s[i + 1];
        }
      }
      SafeReadsBack(s[1..]);
      assert [s[0]] + s[1..] == s;
    }
  }

  lemma {:induction false} EscapedReadsBack(s: string, t: string)
    ensures Read(Escape(s) + t, Single) == Prepend(s, Read(t, Single))
    decreases |s|
  {
    if s == [] {
      assert Escape(s) + t == t;
      PrependNothing(Read(t, Single));
    } else {
      var head := if s[0] == '\'' then "'\"'\"'" else [s[0]];
      var rest := Escape(s[1..]) + t;
      EscapedReadsBack(s[1..], t);
      AppendAssoc(head, Escape(s[1..]), t);
      assert Escape(s) + t == head + rest;
      if s[0] == '\'' {
        EscapedQuoteReads(rest);
      } else {
        assert (head + rest)[0] == s[0] && (head + rest)[1..] == rest;
      }
      PrependTwice([s[0]], s[1..], Read(t, Single));
      assert [s[0]] + s[1..] == s;
    }
  }

  lemma PrependNothing(o: Option<string>)
    ensures Prepend([], o) == o
  {
    if o.Some? {
      assert [] + o.value == o.value;
    }
  }

  lemma PrependTwice(a: string, b: string, o: Option<string>)
    ensures Prepend(a, Prepend(b, o)) == Prepend(a + b, o)
  {
    if o.Some? {
      AppendAssoc(a, b, o.value);
    }
  }

  /** Inside single quotes, `'"'"'` closes the quotes, gives one quote in
      double quotes and reopens them: it reads as one single quote. */
  lemma EscapedQuoteReads(rest: string)
    ensures Read("'\"'\"'" + rest, Single) == Prepend("'", Read(rest, Single))
  {
    var w := "'\"'\"'" + rest;
    assert w[1..] == "\"'\"'" + rest;
    assert w[1..][1..] == "'\"'" + rest;
    assert w[1..][1..][1..] == "\"'" + rest;
    assert w[1..][1..][1..][1..] == "'" + rest;
    assert w[1..][1..][1..][1..][1..] == rest;
    assert Read(w[1..][1..][1..][1..], Bare) == Read(rest, Single);
    assert Read(w[1..][1..][1..], Double) == Read(rest, Single);
    assert Read(w[1..][1..], Double) == Prepend("'", Read(rest, Single));
    assert Read(w[1..], Bare) == Prepend("'", Read(rest, Single));
  }

  /** The shell reads back from `Quote(s)` exactly `s`. */
  lemma QuoteReadsBack(s: string)
    ensures Read(Quote(s), Bare) == Some(s)
  {
    if s == [] {
      var w := Quote(s);
      assert w == "''" && w[1..] == "'" && w[1..][1..] == [];
      assert Read(w[1..], Single) == Read([], Bare);
    } else if AllSafe(s) {
      SafeReadsBack(s);
    } else {
      assert Quote(s) == "'" + Escape(s) + "'";
      QuotedReadsBack(s);
    }
  }

  /** Text in single quotes, with its quotes escaped, reads back as itself. */
  lemma QuotedReadsBack(s: string)
    ensures Read("'" + Escape(s) + "'", Bare) == Some(s)
  {
    var w := "'" + Escape(s) + "'";
    assert w[0] == '\'' && w[1..] == Escape(s) + "'";
    EscapedReadsBack(s, "'");
    assert "'"[1..] == [];
    assert Read("'", Single) == Some([]);
    assert s + [] == s;
  }

  /** What `__append_arguments` stores for a positional argument (with
      `is_quoted` guarded for the empty text): redirections stay objects,
      quoted texts stay as they are, other texts are quoted. */
  function Prepare(a: Arg): Arg {
    match a
    case Redirect(_) => a
    case Text(s) => if IsQuoted(s) then a else Text(Quote(s))
  }

  /** `__append_arguments` as written, per argument: the empty text makes
      `is_quoted` raise. */
  function PrepareAsWritten(a: Arg): Result<Arg, ShellError> {
    match a
    case Redirect(_) => Ok(a)
    case Text(s) =>
      var q := IsQuotedAsWritten(s);
      if q.Err? then Err(q.error)
      else if q.value then Ok(a)
      else Ok(Text(Quote(s)))
  }

  /** Every positional argument reaches the shell as itself: a redirection
      untouched, a quoted text untouched, any other text (the empty one
      included) as a word the shell reads back to the text. */
  lemma PreparedArgumentReadsBack(a: Arg)
    ensures a.Redirect? ==> Prepare(a) == a
    ensures a.Text? && IsQuoted(a.s) ==> Prepare(a) == a
    ensures a.Text? && !IsQuoted(a.s) ==> Prepare(a).Text? && Read(Prepare(a).s, Bare) == Some(a.s)
  {
    if a.Text? {
      QuoteReadsBack(a.s);
    }
  }

  /** As written, an empty argument raises instead of becoming `''`; every
      other argument is stored as `Prepare` stores it. */
  lemma AsWrittenRejectsEmptyArgument(a: Arg)
    ensures PrepareAsWritten(Text("")) == Err(IndexError)
    ensures Prepare(Text("")) == Text("''") && Read("''", Bare) == Some("")
    ensures a != Text("") ==> PrepareAsWritten(a) == Ok(Prepare(a))
  {
    QuoteReadsBack("");
  }

  function PrepareAll(args: seq<Arg>): (r: seq<Arg>)
    ensures |r| == |args|
    ensures forall i :: 0 <= i < |args| ==> r[i] == Prepare(args[i])
  {
    seq(|args|, i requires 0 <= i < |args| => Prepare(args[i]))
  }

  /** A keyword argument `key=value`. */
  function Keyword(kv: (string, string)): (r: Arg)
    ensures r.Text? && |r.s| == |kv.0| + 1 + |kv.1| && r.s[..|kv.0|] == kv.0 && r.s[|kv.0|] == '=' && r.s[|kv.0| + 1..] == kv.1
  {
    Text(kv.0 + "=" + kv.1)
  }

  function Keywords(kwargs: seq<(string, string)>): (r: seq<Arg>)
    ensures |r| == |kwargs|
    ensures forall i :: 0 <= i < |kwargs| ==> r[i] == Keyword(kwargs[i])
  {
    seq(|kwargs|, i requires 0 <= i < |kwargs| => Keyword(kwargs[i]))
  }

  /** `build`: the command, a space, the items' texts joined by single
      spaces, with surrounding white space stripped. */
  function BuildLine(command: string, args: seq<Arg>): string {
    StripSpace(Unstripped(command, args))
  }

  function Unstripped(command: string, args: seq<Arg>): string {
    command + " " + Join(seq(|args|, i requires 0 <= i < |args| => ItemText(args[i])), " ")
  }

  /** The built line is the command, a space and the items' texts joined
      by spaces, less white space at either end and nothing else: it
      neither starts nor ends with white space. */
  lemma BuildStripsOnlySpace(command: string, args: seq<Arg>)
    ensures var r := BuildLine(command, args);
      (r != [] ==> !IsSpaceChar(r[0]) && !IsSpaceChar(r[|r| - 1])) &&
      exists pre, post :: Unstripped(command, args) == pre + r + post && All(pre, IsSpaceChar) && All(post, IsSpaceChar)
  {
    TrimShape(Unstripped(command, args), IsSpaceChar);
  }

  /** The outcome of running a built line. */
  datatype Response = Response(exitCode: int, output: string)

  datatype Failure =
    | CommandNotFound(command: string, result: Response)
    | CommandFailed(command: string, result: Response)

  /** `execute` after the run: exit code 0 gives the response, 127 raises
      `ShellCommandNotFound`, any other code `ShellCommandRuntimeException`,
      both carrying the line and the response. */
  function Classify(line: string, res: Response): (r: Result<Response, Failure>)
    ensures r.Ok? <==> res.exitCode == 0
    ensures r.Ok? ==> r.value == res
    ensures r.Err? ==> r.error.command == line && r.error.result == res
    ensures r.Err? ==> (r.error.CommandNotFound? <==> res.exitCode == 127)
  {
    if res.exitCode == 0 then Ok(res)
    else if res.exitCode == 127 then Err(CommandNotFound(line, res))
    else Err(CommandFailed(line, res))
  }

  /** The right operand of `|`, `&` and `+`. */
  datatype Operand = CommandOperand(c: ShellCommand) | RedirectionOperand(r: Redirection) | OtherOperand(text: string)

  class ShellCommand {
    const command: string
    var arguments: seq<Arg>

    /** `ShellCommand(command, *args, **kwargs)`. */
    constructor (command: string, args: seq<Arg>, kwargs: seq<(string, string)>)
      ensures this.command == command
      ensures arguments == PrepareAll(args) + Keywords(kwargs)
    {
      this.command := command;
      arguments := [];
      new;
      AppendArguments(args, kwargs);
    }

    /** `__append_arguments`: the positionals prepared, in order, then the
        keyword arguments, in order. */
    method AppendArguments(args: seq<Arg>, kwargs: seq<(string, string)>)
      modifies this
      ensures arguments == old(arguments) + PrepareAll(args) + Keywords(kwargs)
    {
      var i := 0;
      while i < |args|
        invariant 0 <= i <= |args|
        invariant arguments == old(arguments) + PrepareAll(args[..i])
      {
        var item := args[i];
        if !item.Redirect? {
          if !IsQuoted(item.s) {
            item := Text(Quote(item.s));
          }
        }
        arguments := arguments + [item];
        assert PrepareAll(args[..i + 1]) == PrepareAll(args[..i]) + [Prepare(args[i])];
        i := i + 1;
      }
      assert args[..i] == args;
      var j := 0;
      while j < |kwargs|
        invariant 0 <= j <= |kwargs|
        invariant arguments == old(arguments) + PrepareAll(args) + Keywords(kwargs[..j])
      {
        arguments := arguments + [Text(kwargs[j].0 + "=" + kwargs[j].1)];
        assert Keywords(kwargs[..j + 1]) == Keywords(kwargs[..j]) + [Keyword(kwargs[j])];
        j := j + 1;
      }
      assert kwargs[..j] == kwargs;
    }

    /** `extend`. */
    method Extend(args: seq<Arg>, kwargs: seq<(string, string)>)
      modifies this
      ensures arguments == old(arguments) + PrepareAll(args) + Keywords(kwargs)
    {
      AppendArguments(args, kwargs);
    }

    /** `build` (and `str`). */
    function Build(): string
      reads this
    {
      BuildLine(command, arguments)
    }

    /** `==`: two commands are equal when they build the same line. */
    predicate Equals(other: ShellCommand)
      reads this, other
    {
      Build() == other.Build()
    }

    /** `>`, `<` and `>>`: the operator and the target's text appended;
        the command itself is returned. */
    method Redirect(op: string, target: string) returns (self: ShellCommand)
      requires op in {">", "<", ">>"}
      modifies this
      ensures self == this
      ensures arguments == old(arguments) + [Text(op), Text(target)]
    {
      arguments := arguments + [Text(op), Text(target)];
      self := this;
    }

    /** `|` (`||`) and `&` (`&&`): only another command may follow, and its
        built line is appended after the operator. */
    method Chain(op: string, other: Operand) returns (r: Result<ShellCommand, ShellError>)
      requires op in {"||", "&&"}
      modifies this
      ensures !other.CommandOperand? ==> r == Err(RuntimeError) && arguments == old(arguments)
      ensures other.CommandOperand? ==>
                r == Ok(this) && arguments == old(arguments) + [Text(op), Text(old(other.c.Build()))]
    {
      if !other.CommandOperand? {
        return Err(RuntimeError);
      }
      var line := other.c.Build();
      arguments := arguments + [Text(op), Text(line)];
      r := Ok(this);
    }

    /** `+`: a redirection is appended as its text; another command as a
        pipe, `|` then its built line; anything else raises. */
    method Pipe(other: Operand) returns (r: Result<ShellCommand, ShellError>)
      modifies this
      ensures other.OtherOperand? ==> r == Err(RuntimeError) && arguments == old(arguments)
      ensures other.RedirectionOperand? ==>
                r == Ok(this) && arguments == old(arguments) + [Text(Render(other.r))]
      ensures other.CommandOperand? ==>
                r == Ok(this) && arguments == old(arguments) + [Text("|"), Text(old(other.c.Build()))]
    {
      if other.OtherOperand? {
        return Err(RuntimeError);
      }
      if other.RedirectionOperand? {
        arguments := arguments + [Text(Render(other.r))];
      } else {
        var line := other.c.Build();
        arguments := arguments + [Text("|"), Text(line)];
      }
      r := Ok(this);
    }

    /** `execute`: the built line is run and its outcome classified. */
    method Execute(run: string -> Response) returns (r: Result<Response, Failure>)
      ensures r == Classify(Build(), run(Build()))
      ensures r.Ok? <==> run(Build()).exitCode == 0
    {
      var line := Build();
      var res := run(line);
      if res.exitCode == 0 {
        return Ok(res);
      }
      if res.exitCode == 127 {
        return Err(CommandNotFound(line, res));
      }
      r := Err(CommandFailed(line, res));
    }
  }

  /** `_unify_newlines`: every `\r\n`, scanned left to right, becomes `\n`. */
  function UnifyNewlines(s: string): string
    decreases |s|
  {
    if |s| >= 2 && s[0] == '\r' && s[1] == '\n' then "\n" + UnifyNewlines(s[2..])
    else if s == [] then []
    else [s[0]] + UnifyNewlines(s[1..])
  }

  /** The text with every carriage return removed. */
  function WithoutCR(s: string): string {
    if s == [] then [] else (if s[0] == '\r' then [] else [s[0]]) + WithoutCR(s[1..])
  }

  /** Only carriage returns are removed: apart from them the text is
      unchanged, no line feed is lost, and a text with no `\r\n` is left
      alone. */
  lemma {:induction false} UnifyNewlinesOnlyDropsCR(s: string)
    ensures WithoutCR(UnifyNewlines(s)) == WithoutCR(s)
    ensures |UnifyNewlines(s)| <= |s|
    ensures (forall i :: 0 <= i < |s| - 1 ==> !(s[i] == '\r' && s[i + 1] == '\n')) ==> UnifyNewlines(s) == s
    decreases |s|
  {
    if |s| >= 2 && s[0] == '\r' && s[1] == '\n' {
      UnifyNewlinesOnlyDropsCR(s[2..]);
      assert s[1..][1..] == s[2..];
      assert WithoutCR(s) == WithoutCR(s[1..]);
      assert ("\n" + UnifyNewlines(s[2..]))[1..] == UnifyNewlines(s[2..]);
    } else if s != [] {
      UnifyNewlinesOnlyDropsCR(s[1..]);
      assert ([s[0]] + UnifyNewlines(s[1..]))[1..] == UnifyNewlines(s[1..]);
      if forall i :: 0 <= i < |s| - 1 ==> !(s[i] == '\r' && s[i + 1] == '\n') {
        assert forall i :: 0 <= i < |s[1..]| - 1 ==> !(s[1..][i] == '\r' && s[1..][i + 1] == '\n') by {
          forall i | 0 <= i < |s[1..]| - 1 ensures !(s[1..][i] == '\r' && s[1..][i + 1] == '\n') {
            assert s[1..][i] == s[i + 1] && s[1..][i + 1] == s[i + 2];
          }
        }
        assert [s[0]] + s[1..] == s;
      }
    }
  }

  /** Reference reading of `replace("\r\n", "\n")`: a carriage return is
      dropped exactly when a line feed follows it; every other character
      stays, in order. */
  function DropCRBeforeLF(s: string): string
    decreases |s|
  {
    if s == [] then []
    else (if s[0] == '\r' && |s| > 1 && s[1] == '\n' then [] else [s[0]]) + DropCRBeforeLF(s[1..])
  }

  /** The left-to-right replacement drops exactly the carriage returns
      that stand right before a line feed: `"\r\r\n"` becomes `"\r\n"`. */
  lemma {:induction false} UnifyNewlinesDropsCRBeforeLF(s: string)
    ensures UnifyNewlines(s) == DropCRBeforeLF(s)
    decreases |s|
  {
    if |s| >= 2 && s[0] == '\r' && s[1] == '\n' {
      UnifyNewlinesDropsCRBeforeLF(s[2..]);
      assert s[1..][1..] == s[2..];
      assert s[1..][0] == '\n';
      assert DropCRBeforeLF(s[1..]) == "\n" + DropCRBeforeLF(s[2..]);
    } else if s != [] {
      UnifyNewlinesDropsCRBeforeLF(s[1..]);
    }
  }

  /** `using_command_full_path`: a command substitution that looks the
      name up with `type -P`, or with `which` when asked to. */
  function UsingCommandFullPath(name: string, useWhich: bool): (r: string)
    ensures StartsWith(r, if useWhich then "$(which " else "$(type -P ")
    ensures EndsWith(r, name + ")")
    ensures |r| == |name| + (if useWhich then 9 else 11)
  {
    var lookup := if useWhich then "which" else "type -P";
    "$(" + lookup + " " + name + ")"
  }
}
