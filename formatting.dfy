/** The formatters around the work items: `quote` and `formatCommand`, which
    show an ffmpeg command line, and `formatOutAndError`, which tidies what
    ffmpeg printed. */
module Formatting {
  import opened Text

  /** quote: the string in double quotes when it contains a space, the
      string itself otherwise. */
  function Quote(thing: string): (r: string)
    // a space survives quoting, and only a quoted result has one
    ensures ' ' in r <==> ' ' in thing
    ensures ' ' in thing ==> |r| == |thing| + 2 && r[0] == '"' && r[|r| - 1] == '"' && r[1..|r| - 1] == thing
    ensures ' ' !in thing ==> r == thing
  {
    if ' ' in thing then "\"" + thing + "\"" else thing
  }

  /** The reading of a shown argument: quotes are taken off only where they
      enclose a space. */
  function Unquote(shown: string): string {
    if |shown| >= 2 && shown[0] == '"' && shown[|shown| - 1] == '"' && ' ' in shown[1..|shown| - 1]
    then shown[1..|shown| - 1]
    else shown
  }

  /** Every string, quoted or not, reads back as itself. */
  lemma QuoteRoundTrip(thing: string)
    ensures Unquote(Quote(thing)) == thing
  {
    if ' ' !in thing && |thing| >= 2 {
      var inner := thing[1..|thing| - 1];
      assert forall c :: c in inner ==> c in thing;
    }
  }

  function QuoteAll(args: seq<string>): (r: seq<string>)
    ensures |r| == |args|
  {
    seq(|args|, i requires 0 <= i < |args| => Quote(args[i]))
  }

  /** The line formatCommand shows. */
  function CommandLine(command: string, args: seq<string>): string {
    Quote(command) + " " + JoinWith(QuoteAll(args), " ")
  }

  /** formatCommand: the quoted command, a space, then the quoted arguments
      separated by single spaces. */
  method FormatCommand(command: string, args: seq<string>) returns (line: string)
    ensures line == CommandLine(command, args)
  {
    var sb := Quote(command);
    var copy: seq<string> := [];
    for i := 0 to |args|
      invariant copy == QuoteAll(args[..i])
    {
      copy := copy + [Quote(args[i])];
    }
    assert args[..|args|] == args;
    line := sb + " " + JoinWith(copy, " ");
  }

  /** With no space in the command or any argument, splitting the shown line
      at its spaces gives the command and the arguments back; with no
      arguments the line ends in a space, so the last piece is empty. */
  lemma CommandLineWords(command: string, args: seq<string>)
    requires ' ' !in command
    requires forall i :: 0 <= i < |args| ==> ' ' !in args[i]
    ensures args != [] ==> SplitOn(CommandLine(command, args), ' ') == [command] + args
    ensures args == [] ==> SplitOn(CommandLine(command, args), ' ') == [command, ""]
  {
    var quoted := QuoteAll(args);
    assert quoted == args;
    var parts := [command] + (if args == [] then [""] else args);
    if args == [] {
      assert CommandLine(command, args) == command + " " + "";
    } else {
      assert JoinWith(parts, " ") == command + " " + JoinWith(args, " ") by {
        assert parts[1..] == args;
      }
    }
    assert CommandLine(command, args) == JoinWith(parts, " ") by {
      assert parts[1..] == (if args == [] then [""] else args);
    }
    assert forall i :: 0 <= i < |parts| ==> ' ' !in parts[i];
    SplitJoin(parts, ' ');
  }

  /** What formatOutAndError makes of one stream: CR and LF trimmed from
      both ends, each CR LF inside replaced by ", ". */
  function Tidy(s: string): string {
    ReplaceCrLf(TrimCrLf(s))
  }

  /** A tidied stream has no CR LF pair left and starts and ends with
      neither CR nor LF. */
  lemma TidyClean(s: string)
    ensures var t := Tidy(s);
            && (forall i :: !HasCrLfAt(t, i))
            && (t != [] ==> !IsCrLf(t[0]) && !IsCrLf(t[|t| - 1]))
            && |t| == |TrimCrLf(s)|
  {
    var trimmed := TrimCrLf(s);
    ReplaceCrLfClean(trimmed);
  }

  /** Tidying twice is tidying once. */
  lemma TidyIdempotent(s: string)
    ensures Tidy(Tidy(s)) == Tidy(s)
  {
    var t := Tidy(s);
    TidyClean(s);
    assert TrimLeftCrLf(t) == t;
    assert TrimRightCrLf(t) == t;
    ReplaceCrLfNoPair(t);
  }

  /** A stream with no CR or LF in it is shown as it is. */
  lemma TidyPlain(s: string)
    requires forall i :: 0 <= i < |s| ==> !IsCrLf(s[i])
    ensures Tidy(s) == s
  {
    assert TrimLeftCrLf(s) == s;
    assert TrimRightCrLf(s) == s;
    ReplaceCrLfNoPair(s);
  }

  /** formatOutAndError: the tidied non-empty streams, stdout first, joined
      by ", ". */
  function FormatOutAndError(stdout: string, stderr: string): (r: string)
    ensures stdout == [] && stderr == [] ==> r == ""
    ensures stdout != [] && stderr == [] ==> r == Tidy(stdout)
    ensures stdout == [] && stderr != [] ==> r == Tidy(stderr)
    ensures stdout != [] && stderr != [] ==> r == Tidy(stdout) + ", " + Tidy(stderr)
  {
    var output := (if |stdout| > 0 then [Tidy(stdout)] else []) + (if |stderr| > 0 then [Tidy(stderr)] else []);
    JoinWith(output, ", ")
  }

  /** Joining with ", " cannot create a CR LF pair. */
  lemma CommaJoinClean(a: string, b: string)
    requires forall i :: !HasCrLfAt(a, i)
    requires forall i :: !HasCrLfAt(b, i)
    ensures forall i :: !HasCrLfAt(a + ", " + b, i)
  {
    var r := a + ", " + b;
    forall i | 0 <= i < |r| - 1
      ensures !HasCrLfAt(r, i)
    {
      if i < |a| - 1 {
        assert r[i] == a[i] && r[i + 1] == a[i + 1];
        assert !HasCrLfAt(a, i);
      } else if i >= |a| + 2 {
        assert r[i] == b[i - |a| - 2] && r[i + 1] == b[i - |a| - 1];
        assert !HasCrLfAt(b, i - |a| - 2);
      } else {
        assert r[i + 1] == ',' || r[i + 1] == ' ' || r[i] == ' ';
      }
    }
  }

  /** The combined message never holds a CR LF pair, not even where the two
      streams meet. */
  lemma FormatOutAndErrorClean(stdout: string, stderr: string)
    ensures forall i :: !HasCrLfAt(FormatOutAndError(stdout, stderr), i)
  {
    TidyClean(stdout);
    TidyClean(stderr);
    if stdout != [] && stderr != [] {
      CommaJoinClean(Tidy(stdout), Tidy(stderr));
    }
  }
}
