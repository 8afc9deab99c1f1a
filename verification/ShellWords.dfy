/** Shell quoting of an argument vector, the sh reading of the quoted text, and the agent's own
    tokenizer for recipe commands. */
module ShellWords {
  import opened Wrappers

  // ----- Quoting -----

  /** `s.replaceAll("'", "'\\''")`. */
  function Escaped(s: string): string {
    if s == [] then [] else (if s[0] == '\'' then "'\\''" else [s[0]]) + Escaped(s[1..])
  }

  function ShQuote(s: string): string {
    "'" + Escaped(s) + "'"
  }

  function Quoted(argv: seq<string>): (words: seq<string>)
    ensures |words| == |argv| && forall i :: 0 <= i < |words| ==> words[i] == ShQuote(argv[i])
  {
    seq(|argv|, i requires 0 <= i < |argv| => ShQuote(argv[i]))
  }

  /** `argv.map(shQuote).join(" ")`. */
  function Join(argv: seq<string>): string {
    Joined(Quoted(argv), " ")
  }

  // ----- What sh reads: IEEE Std 1003.1, Shell Command Language, sections 2.2.1 to 2.2.3 and 2.3 -----

  datatype Mode =
    | Between
    | InWord(text: string)
    | InQuote(text: string)
    | InDouble(text: string)

  /** Why reading stopped: nothing left, a character with another meaning, or an open quote or escape. */
  datatype Stop =
    | End
    | At(rest: string)
    | Unfinished

  datatype Reading = Reading(words: seq<string>, stop: Stop)

  predicate IsBlank(c: char) {
    c == ' ' || c == '\t'
  }

  /** Unquoted, these end a command, redirect, expand or match file names, and at the start of a word
      they begin a comment or name a home directory.  A carriage return is added: it is no blank of the
      standard, but the agent's tokenizer splits at it. */
  predicate IsSpecial(c: char, mode: Mode) {
    || c == '|' || c == '&' || c == ';' || c == '<' || c == '>' || c == '(' || c == ')'
    || c == '$' || c == '`' || c == '\n' || c == '*' || c == '?' || c == '[' || c == '\r'
    || (mode.Between? && (c == '#' || c == '~'))
  }

  /** In double quotes a backslash escapes these only (a newline it removes). */
  predicate IsEscapable(c: char) {
    c == '$' || c == '`' || c == '"' || c == '\\'
  }

  function Pending(mode: Mode): seq<string> {
    if mode.Between? then [] else [mode.text]
  }

  function Held(mode: Mode): string {
    if mode.Between? then "" else mode.text
  }

  /** One step of the reader: some characters taken and the words they completed, or a halt. */
  datatype Move =
    | Go(taken: nat, mode: Mode, words: seq<string>)
    | Halt(words: seq<string>, stop: Stop)

  function InQuotes(text: string, mode: Mode): (m: Move)
    requires text != [] && (mode.InQuote? || mode.InDouble?)
    ensures m.Go? ==> 1 <= m.taken <= |text|
  {
    var c, pair := text[0], |text| > 1 && text[0] == '\\';
    if mode.InQuote? then Go(1, if c == '\'' then InWord(mode.text) else InQuote(mode.text + [c]), [])
    else if c == '"' then Go(1, InWord(mode.text), [])
    else if pair && text[1] == '\n' then Go(2, mode, [])
    else if pair && IsEscapable(text[1]) then Go(2, InDouble(mode.text + [text[1]]), [])
    else if c == '$' || c == '`' then Halt([], At(text))
    else Go(1, InDouble(mode.text + [c]), [])
  }

  /** `declined` are further characters at which the reader is to halt when they are not quoted. */
  function Unquoted(text: string, mode: Mode, declined: set<char>): (m: Move)
    requires text != [] && !mode.InQuote? && !mode.InDouble?
    ensures m.Go? ==> 1 <= m.taken <= |text|
  {
    var c := text[0];
    if c == '\'' then Go(1, InQuote(Held(mode)), [])
    else if c == '"' then Go(1, InDouble(Held(mode)), [])
    else if c == '\\' then
      if |text| == 1 then Halt([], Unfinished)
      else Go(2, if text[1] == '\n' then mode else InWord(Held(mode) + [text[1]]), [])
    else if IsBlank(c) then Go(1, Between, Pending(mode))
    else if IsSpecial(c, mode) || c in declined then Halt(Pending(mode), At(text))
    else Go(1, InWord(Held(mode) + [c]), [])
  }

  function Advance(text: string, mode: Mode, declined: set<char>): (m: Move)
    requires text != []
    ensures m.Go? ==> 1 <= m.taken <= |text|
  {
    if mode.InQuote? || mode.InDouble? then InQuotes(text, mode) else Unquoted(text, mode, declined)
  }

  function Prepend(words: seq<string>, r: Reading): Reading {
    Reading(words + r.words, r.stop)
  }

  function Read(text: string, mode: Mode, declined: set<char>): Reading
    decreases |text|
  {
    if text == [] then
      if mode.InQuote? || mode.InDouble? then Reading([], Unfinished) else Reading(Pending(mode), End)
    else
      var m := Advance(text, mode, declined);
      if m.Halt? then Reading(m.words, m.stop)
      else if m.words == [] then Read(text[m.taken..], m.mode, declined)
      else Prepend(m.words, Read(text[m.taken..], m.mode, declined))
  }

  lemma ReadStep(c: char, rest: string, mode: Mode, declined: set<char>)
    ensures mode.InQuote? ==>
      Read([c] + rest, mode, declined) == Read(rest, if c == '\'' then InWord(mode.text) else InQuote(mode.text + [c]), declined)
    ensures (mode.Between? || mode.InWord?) && c == '\'' ==>
      Read([c] + rest, mode, declined) == Read(rest, InQuote(Held(mode)), declined)
    ensures mode.InWord? && c == ' ' ==>
      Read([c] + rest, mode, declined) == Prepend([mode.text], Read(rest, Between, declined))
    ensures (mode.Between? || mode.InWord?) && c != '\\' && c != '\'' && c != '"' && !IsBlank(c) && !IsSpecial(c, mode) && c !in declined ==>
      Read([c] + rest, mode, declined) == Read(rest, InWord(Held(mode) + [c]), declined)
  {
    assert ([c] + rest)[1..] == rest;
  }

  lemma ReadEscaped(c: char, rest: string, mode: Mode, declined: set<char>)
    requires (mode.Between? || mode.InWord?) && c != '\n'
    ensures Read(['\\', c] + rest, mode, declined) == Read(rest, InWord(Held(mode) + [c]), declined)
  {
    assert (['\\', c] + rest)[2..] == rest;
  }

  lemma EscapedFront(s: string, rest: string)
    requires s != []
    ensures s[0] == '\'' ==>
      Escaped(s) + rest == ['\''] + (['\\', '\''] + (['\''] + (Escaped(s[1..]) + rest)))
    ensures s[0] != '\'' ==> Escaped(s) + rest == [s[0]] + (Escaped(s[1..]) + rest)
  {
    if s[0] == '\'' {
      FourAndMore(Escaped(s[1..]), rest);
    } else {
      Regroup([s[0]], Escaped(s[1..]), rest);
    }
  }

  lemma FourAndMore(a: string, b: string)
    ensures "'\\''" + a + b == ['\''] + (['\\', '\''] + (['\''] + (a + b)))
  {
    var c := a + b;
    assert "'\\''" + a + b == "'\\''" + c;
    assert ['\\', '\''] + (['\''] + c) == "\\''" + c;
    assert ['\''] + ("\\''" + c) == "'\\''" + c;
  }

  lemma {:induction false} ReadQuoted(s: string, rest: string, done: string, declined: set<char>)
    ensures Read(Escaped(s) + rest, InQuote(done), declined) == Read(rest, InQuote(done + s), declined)
    decreases |s|
  {
    hide Read, Escaped;
    if s == [] {
      EscapedNothing(rest);
      assert done + s == done;
    } else {
      var tail := Escaped(s[1..]) + rest;
      EscapedFront(s, rest);
      ReadQuoted(s[1..], rest, done + [s[0]], declined);
      assert done + [s[0]] + s[1..] == done + s;
      if s[0] == '\'' {
        ReadStep('\'', ['\\', '\''] + (['\''] + tail), InQuote(done), declined);
        ReadEscaped('\'', ['\''] + tail, InWord(done), declined);
        ReadStep('\'', tail, InWord(done + ['\'']), declined);
      } else {
        ReadStep(s[0], tail, InQuote(done), declined);
      }
    }
  }

  lemma EscapedNothing(rest: string)
    ensures Escaped([]) + rest == rest
  {
  }

  lemma QuotedFront(s: string, rest: string)
    ensures ShQuote(s) + rest == ['\''] + (Escaped(s) + (['\''] + rest))
  {
  }

  lemma ReadOneWord(s: string, rest: string, declined: set<char>)
    ensures Read(ShQuote(s) + rest, Between, declined) == Read(rest, InWord(s), declined)
  {
    hide Read, Escaped, ShQuote;
    QuotedFront(s, rest);
    ReadStep('\'', Escaped(s) + (['\''] + rest), Between, declined);
    ReadQuoted(s, ['\''] + rest, "", declined);
    assert "" + s == s;
    ReadStep('\'', rest, InQuote(s), declined);
  }

  lemma JoinFront(argv: seq<string>, rest: string)
    requires argv != []
    ensures |argv| == 1 ==> Join(argv) + rest == ShQuote(argv[0]) + rest
    ensures |argv| > 1 ==> Join(argv) + rest == ShQuote(argv[0]) + ([' '] + (Join(argv[1..]) + rest))
  {
    hide ShQuote, Quoted;
    if |argv| > 1 {
      var q, more := ShQuote(argv[0]), Join(argv[1..]);
      assert Quoted(argv)[1..] == Quoted(argv[1..]);
      assert Join(argv) == q + [' '] + more;
      Regroup(q + [' '], more, rest);
      Regroup(q, [' '], more + rest);
    }
  }

  /** Whatever follows a blank after the quoted vector, sh reads exactly the vector and goes on from
      there: no character of an argument is taken for an operator, an expansion or a separator. */
  lemma {:induction false} QuotedVectorThenMore(argv: seq<string>, rest: string, declined: set<char>)
    requires argv != []
    ensures Read(Join(argv) + ([' '] + rest), Between, declined) == Prepend(argv, Read(rest, Between, declined))
    decreases |argv|
  {
    hide Read, Join, ShQuote;
    var more := if |argv| == 1 then rest else Join(argv[1..]) + ([' '] + rest);
    JoinFront(argv, [' '] + rest);
    ReadOneWord(argv[0], [' '] + more, declined);
    ReadStep(' ', more, InWord(argv[0]), declined);
    var after := Read(rest, Between, declined).words;
    if |argv| > 1 {
      QuotedVectorThenMore(argv[1..], rest, declined);
      assert [argv[0]] + (argv[1..] + after) == argv + after;
    } else {
      assert argv == [argv[0]];
    }
  }

  lemma NothingToRead(declined: set<char>)
    ensures Join([]) == "" && Read("", Between, declined) == Reading([], End)
  {
  }

  lemma LastWordEnds(s: string, declined: set<char>)
    ensures Read("", InWord(s), declined) == Reading([s], End)
  {
  }

  lemma {:induction false} QuotedVectorReadsBack(argv: seq<string>, declined: set<char>)
    ensures Read(Join(argv), Between, declined) == Reading(argv, End)
    decreases |argv|
  {
    hide Read, Join, ShQuote;
    if argv == [] {
      NothingToRead(declined);
    } else {
      JoinFront(argv, "");
      assert Join(argv) + "" == Join(argv);
      if |argv| == 1 {
        ReadOneWord(argv[0], "", declined);
        LastWordEnds(argv[0], declined);
        assert argv == [argv[0]];
      } else {
        var more := Join(argv[1..]);
        assert more + "" == more;
        ReadOneWord(argv[0], [' '] + more, declined);
        ReadStep(' ', more, InWord(argv[0]), declined);
        QuotedVectorReadsBack(argv[1..], declined);
        assert [argv[0]] + argv[1..] == argv;
      }
    }
  }

  lemma JoinIsInjective(a: seq<string>, b: seq<string>)
    requires Join(a) == Join(b)
    ensures a == b
  {
    QuotedVectorReadsBack(a, {});
    QuotedVectorReadsBack(b, {});
  }

  // ----- Lines of the job wrapper script -----

  function CommandLine(argv: seq<string>): string {
    Join(argv) + " > log 2>&1"
  }

  function ChangeDirectoryLine(dir: string): string {
    "cd " + ShQuote(dir) + " || exit 127"
  }

  /** The wrapper's command is the argument vector and nothing but it, up to the redirection. */
  lemma CommandLineRunsTheVector(argv: seq<string>, declined: set<char>)
    requires argv != []
    ensures Read(CommandLine(argv), Between, declined) == Reading(argv, At("> log 2>&1"))
  {
    hide Join;
    var rest := "> log 2>&1";
    assert CommandLine(argv) == Join(argv) + ([' '] + rest);
    QuotedVectorThenMore(argv, rest, declined);
    assert argv + [] == argv;
  }

  lemma LineFront(tail: string, more: string)
    ensures "cd " + tail + (" " + more) == ['c'] + (['d'] + ([' '] + (tail + ([' '] + more))))
  {
    assert "cd " == ['c'] + ['d'] + [' '];
    var t := tail + ([' '] + more);
    Regroup("cd ", tail, [' '] + more);
    Regroup(['c'] + ['d'], [' '], t);
    Regroup(['c'], ['d'], [' '] + t);
  }

  lemma ChangeDirectoryLineEntersTheDirectory(dir: string, declined: set<char>)
    requires 'c' !in declined && 'd' !in declined
    ensures Read(ChangeDirectoryLine(dir), Between, declined) == Reading(["cd", dir], At("|| exit 127"))
  {
    hide Read, ShQuote, Escaped;
    var rest := "|| exit 127";
    var tail := ShQuote(dir) + ([' '] + rest);
    assert " || exit 127" == " " + rest;
    LineFront(ShQuote(dir), rest);
    assert "" + ['c'] == "c" && "c" + ['d'] == "cd";
    ReadStep('c', ['d'] + ([' '] + tail), Between, declined);
    ReadStep('d', [' '] + tail, InWord("c"), declined);
    ReadStep(' ', tail, InWord("cd"), declined);
    ReadOneWord(dir, [' '] + rest, declined);
    ReadStep(' ', rest, InWord(dir), declined);
    StopsAtOperator(rest, declined);
  }

  lemma StopsAtOperator(rest: string, declined: set<char>)
    requires rest != [] && rest[0] == '|'
    ensures Read(rest, Between, declined) == Reading([], At(rest))
  {
  }

  // ----- The agent's tokenizer -----

  datatype Scan = Plain | Single | Double

  predicate Splits(c: char) {
    c == ' ' || c == '\t' || c == '\n' || c == '\r'
  }

  /** The tokens still to come, with `cur` collected so far and `has` telling whether a token is open. */
  function Tokens(text: string, scan: Scan, cur: string, has: bool): seq<string>
    decreases |text|
  {
    if text == [] then
      if has then [cur] else []
    else
      var c, pair := text[0], |text| > 1;
      match scan
      case Single =>
        if c == '\'' then Tokens(text[1..], Plain, cur, has) else Tokens(text[1..], Single, cur + [c], has)
      case Double =>
        if c == '"' then Tokens(text[1..], Plain, cur, has)
        else if c == '\\' && pair && text[1] == '\n' then Tokens(text[2..], Double, cur, has)
        else if c == '\\' && pair && (text[1] == '"' || text[1] == '\\') then Tokens(text[2..], Double, cur + [text[1]], has)
        else Tokens(text[1..], Double, cur + [c], has)
      case Plain =>
        if Splits(c) then
          if has then [cur] + Tokens(text[1..], Plain, "", false) else Tokens(text[1..], Plain, cur, false)
        else if c == '\'' then Tokens(text[1..], Single, cur, true)
        else if c == '"' then Tokens(text[1..], Double, cur, true)
        else if c == '\\' && pair && text[1] == '\n' then Tokens(text[2..], Plain, cur, cur != "")
        else if c == '\\' && pair then Tokens(text[2..], Plain, cur + [text[1]], true)
        else Tokens(text[1..], Plain, cur + [c], true)
  }

  /** What is left at an index that may have stepped past a missing closing quote. */
  function Rest(cmd: string, i: nat): string {
    if i <= |cmd| then cmd[i..] else []
  }

  lemma RestSteps(cmd: string, i: nat)
    requires i < |cmd|
    ensures Rest(cmd, i) == [cmd[i]] + Rest(cmd, i + 1)
    ensures Rest(cmd, i)[1..] == Rest(cmd, i + 1)
    ensures i + 1 < |cmd| ==> |Rest(cmd, i)| > 1 && Rest(cmd, i)[1] == cmd[i + 1] && Rest(cmd, i)[2..] == Rest(cmd, i + 2)
    ensures i + 1 == |cmd| ==> |Rest(cmd, i)| == 1
  {
  }

  lemma SingleAt(cmd: string, i: nat, cur: string)
    requires i < |cmd|
    ensures Tokens(Rest(cmd, i), Single, cur, true) ==
            if cmd[i] == '\'' then Tokens(Rest(cmd, i + 1), Plain, cur, true)
            else Tokens(Rest(cmd, i + 1), Single, cur + [cmd[i]], true)
  {
    RestSteps(cmd, i);
    hide Rest;
  }

  predicate Pair(cmd: string, i: nat, second: string) {
    i + 1 < |cmd| && cmd[i] == '\\' && cmd[i + 1] in second
  }

  lemma DoubleAt(cmd: string, i: nat, cur: string)
    requires i < |cmd|
    ensures Tokens(Rest(cmd, i), Double, cur, true) ==
            if cmd[i] == '"' then Tokens(Rest(cmd, i + 1), Plain, cur, true)
            else if Pair(cmd, i, "\n") then Tokens(Rest(cmd, i + 2), Double, cur, true)
            else if Pair(cmd, i, "\"\\") then Tokens(Rest(cmd, i + 2), Double, cur + [cmd[i + 1]], true)
            else Tokens(Rest(cmd, i + 1), Double, cur + [cmd[i]], true)
  {
    RestSteps(cmd, i);
    hide Rest;
  }

  lemma PlainAt(cmd: string, i: nat, cur: string, has: bool)
    requires i < |cmd|
    ensures Splits(cmd[i]) && has ==>
      Tokens(Rest(cmd, i), Plain, cur, has) == [cur] + Tokens(Rest(cmd, i + 1), Plain, "", false)
    ensures Splits(cmd[i]) && !has ==>
      Tokens(Rest(cmd, i), Plain, cur, has) == Tokens(Rest(cmd, i + 1), Plain, cur, false)
    ensures cmd[i] == '\'' ==> Tokens(Rest(cmd, i), Plain, cur, has) == Tokens(Rest(cmd, i + 1), Single, cur, true)
    ensures cmd[i] == '"' ==> Tokens(Rest(cmd, i), Plain, cur, has) == Tokens(Rest(cmd, i + 1), Double, cur, true)
    ensures Pair(cmd, i, "\n") ==>
      Tokens(Rest(cmd, i), Plain, cur, has) == Tokens(Rest(cmd, i + 2), Plain, cur, cur != "")
    ensures cmd[i] == '\\' && i + 1 < |cmd| && !Pair(cmd, i, "\n") ==>
      Tokens(Rest(cmd, i), Plain, cur, has) == Tokens(Rest(cmd, i + 2), Plain, cur + [cmd[i + 1]], true)
    ensures !Splits(cmd[i]) && cmd[i] !in "'\"" && !(cmd[i] == '\\' && i + 1 < |cmd|) ==>
      Tokens(Rest(cmd, i), Plain, cur, has) == Tokens(Rest(cmd, i + 1), Plain, cur + [cmd[i]], true)
  {
    RestSteps(cmd, i);
    hide Rest;
  }

  lemma AtTheEnd(cmd: string, i: nat, scan: Scan, cur: string, has: bool)
    requires i >= |cmd|
    ensures Tokens(Rest(cmd, i), scan, cur, has) == if has then [cur] else []
  {
  }

  method TokenizeCommand(cmd: string) returns (tokens: seq<string>)
    ensures tokens == Tokens(cmd, Plain, "", false)
  {
    hide Tokens, Rest;
    tokens := [];
    var cur, has, i := "", false, 0;
    var n := |cmd|;
    RestOfAll(cmd);
    while i < n
      invariant tokens + Tokens(Rest(cmd, i), Plain, cur, has) == Tokens(cmd, Plain, "", false)
      decreases n - i
    {
      var c := cmd[i];
      PlainAt(cmd, i, cur, has);
      if Splits(c) {
        if has {
          OneMore(tokens, cur, Tokens(Rest(cmd, i + 1), Plain, "", false));
          tokens, cur, has := tokens + [cur], "", false;
        }
        i := i + 1;
        continue;
      }
      has := true;
      if c == '\'' {
        i := i + 1;
        while i < n && cmd[i] != '\''
          invariant tokens + Tokens(Rest(cmd, i), Single, cur, true) == Tokens(cmd, Plain, "", false)
        {
          SingleAt(cmd, i, cur);
          cur, i := cur + [cmd[i]], i + 1;
        }
        CloseQuote(cmd, i, Single, cur);
        i := i + 1;
      } else if c == '"' {
        i := i + 1;
        while i < n && cmd[i] != '"'
          invariant tokens + Tokens(Rest(cmd, i), Double, cur, true) == Tokens(cmd, Plain, "", false)
        {
          DoubleAt(cmd, i, cur);
          if Pair(cmd, i, "\n") {
            i := i + 2;
          } else if Pair(cmd, i, "\"\\") {
            cur, i := cur + [cmd[i + 1]], i + 2;
          } else {
            cur, i := cur + [cmd[i]], i + 1;
          }
        }
        CloseQuote(cmd, i, Double, cur);
        i := i + 1;
      } else if Pair(cmd, i, "\n") {
        i := i + 2;
        if cur == "" {
          has := false;
        }
      } else if c == '\\' && i + 1 < n {
        cur, i := cur + [cmd[i + 1]], i + 2;
      } else {
        cur, i := cur + [c], i + 1;
      }
    }
    AtTheEnd(cmd, i, Plain, cur, has);
    if has {
      tokens := tokens + [cur];
    }
  }

  lemma RestOfAll(cmd: string)
    ensures Rest(cmd, 0) == cmd
  {
  }

  lemma OneMore(tokens: seq<string>, cur: string, more: seq<string>)
    ensures tokens + ([cur] + more) == tokens + [cur] + more
  {
  }

  /** Stepping over the closing quote, or past the end when it is missing. */
  lemma CloseQuote(cmd: string, i: nat, scan: Scan, cur: string)
    requires scan != Plain && (i < |cmd| ==> cmd[i] == if scan == Single then '\'' else '"')
    ensures Tokens(Rest(cmd, i), scan, cur, true) == Tokens(Rest(cmd, i + 1), Plain, cur, true)
  {
    if i < |cmd| {
      SingleAt(cmd, i, cur);
      DoubleAt(cmd, i, cur);
    } else {
      AtTheEnd(cmd, i, scan, cur, true);
      AtTheEnd(cmd, i + 1, Plain, cur, true);
    }
  }

  predicate IsOrdinary(w: string) {
    forall i :: 0 <= i < |w| ==>
      w[i] != ' ' && w[i] != '\t' && w[i] != '\n' && w[i] != '\r' && w[i] != '\'' && w[i] != '"' && w[i] != '\\'
  }

  lemma {:induction false} OrdinaryCollects(w: string, rest: string, cur: string)
    requires IsOrdinary(w)
    ensures Tokens(w + rest, Plain, cur, true) == Tokens(rest, Plain, cur + w, true)
    decreases |w|
  {
    if w == [] {
      assert w + rest == rest && cur + w == cur;
    } else {
      assert (w + rest)[0] == w[0] && (w + rest)[1..] == w[1..] + rest;
      OrdinaryCollects(w[1..], rest, cur + [w[0]]);
      assert cur + [w[0]] + w[1..] == cur + w;
    }
  }

  /** The tokenizer cuts ordinary text at a blank, a tab, a newline and a carriage return, and any run of
      these before a word is skipped. */
  lemma OrdinaryWordIsCut(w: string, c: char, rest: string)
    requires w != [] && IsOrdinary(w) && (c == ' ' || c == '\t' || c == '\n' || c == '\r')
    ensures Tokens(w + ([c] + rest), Plain, "", false) == [w] + Tokens(rest, Plain, "", false)
    ensures Tokens([c] + rest, Plain, "", false) == Tokens(rest, Plain, "", false)
  {
    var text := w + ([c] + rest);
    assert text[0] == w[0] && text[1..] == w[1..] + ([c] + rest);
    assert "" + [w[0]] == [w[0]];
    OrdinaryCollects(w[1..], [c] + rest, [w[0]]);
    assert [w[0]] + w[1..] == w;
    assert ([c] + rest)[1..] == rest;
  }

  /** The reader halts at every unquoted character that ends a command, redirects, expands or matches
      file names, and inside double quotes at an expansion.  A quote that does not end is unfinished. */
  lemma ReaderHalts(c: char, rest: string, w: string, declined: set<char>)
    ensures c == '|' || c == '&' || c == ';' || c == '<' || c == '>' || c == '(' || c == ')' || c == '$' || c == '`'
            || c == '\n' || c == '*' || c == '?' || c == '[' || c == '\r' ==>
              Read([c] + rest, InWord(w), declined) == Reading([w], At([c] + rest))
    ensures c == '#' || c == '~' ==> Read([c] + rest, Between, declined) == Reading([], At([c] + rest))
    ensures c == '$' || c == '`' ==> Read([c] + rest, InDouble(w), declined) == Reading([], At([c] + rest))
    ensures c == ' ' || c == '\t' ==>
              Read([c] + rest, InWord(w), declined).words == [w] + Read(rest, Between, declined).words
    ensures Read([], InQuote(w), declined) == Read([], InDouble(w), declined) == Reading([], Unfinished)
  {
    assert ([c] + rest)[1..] == rest;
  }

  // ----- When the tokenizer agrees with sh -----

  predicate Continues(text: string) {
    |text| > 1 && text[0] == '\\' && text[1] == '\n'
  }

  /** After any number of line continuations the word ends here. */
  predicate WordEnds(text: string)
    decreases |text|
  {
    text == [] || IsBlank(text[0]) || (Continues(text) && WordEnds(text[2..]))
  }

  /** Somewhere a word that is so far only empty quotes runs into a line continuation and then ends.
      There the tokenizer forgets that a word had been opened. */
  predicate DropsEmptyWord(text: string, mode: Mode, declined: set<char>)
    decreases |text|
  {
    text != [] && Advance(text, mode, declined).Go? &&
    var m := Advance(text, mode, declined);
    (mode == InWord("") && Continues(text) && WordEnds(text)) || DropsEmptyWord(text[m.taken..], m.mode, declined)
  }

  /** Somewhere in double quotes a backslash escapes a dollar sign or a backquote.  There sh removes the
      backslash and the tokenizer keeps it. */
  predicate KeepsBackslash(text: string, mode: Mode, declined: set<char>)
    decreases |text|
  {
    text != [] && Advance(text, mode, declined).Go? &&
    var m := Advance(text, mode, declined);
    KeepsHere(text, mode)
    || KeepsBackslash(text[m.taken..], m.mode, declined)
  }

  function ScanOf(mode: Mode): Scan {
    if mode.InQuote? then Single else if mode.InDouble? then Double else Plain
  }

  /** The tokenizer's flag follows the mode, except on an empty word just continued over a line. */
  predicate Tracks(mode: Mode, has: bool) {
    has == !mode.Between? || (mode == InWord("") && !has)
  }

  predicate Forgot(text: string, mode: Mode, has: bool) {
    mode == InWord("") && !has && WordEnds(text)
  }

  predicate Breaks(text: string, mode: Mode)
    requires text != []
  {
    !mode.InQuote? && !mode.InDouble? && IsBlank(text[0])
  }

  /** An unquoted line continuation. */
  predicate Joins(text: string, mode: Mode) {
    !mode.InQuote? && !mode.InDouble? && Continues(text)
  }

  predicate KeepsHere(text: string, mode: Mode) {
    mode.InDouble? && |text| > 1 && text[0] == '\\' && (text[1] == '$' || text[1] == '`')
  }

  /** What one step does to the mode and the words. */
  lemma AdvanceMode(text: string, mode: Mode, declined: set<char>)
    requires text != [] && Advance(text, mode, declined).Go?
    ensures var m := Advance(text, mode, declined);
      if Breaks(text, mode) then m == Go(1, Between, Pending(mode))
      else if Joins(text, mode) then m == Go(2, mode, [])
      else m.words == [] && !m.mode.Between?
    ensures KeepsHere(text, mode) ==> Advance(text, mode, declined) == Go(2, InDouble(mode.text + [text[1]]), [])
  {
  }

  /** The tokenizer over a step that stays in a word: it collects what the reader collects. */
  predicate Collects(text: string, mode: Mode, cur: string, has: bool, m: Move)
    requires m.Go? && m.taken <= |text|
  {
    && |Held(mode)| <= |Held(m.mode)| && Held(mode) == Held(m.mode)[..|Held(mode)|]
    && Tokens(text, ScanOf(mode), cur, has)
       == Tokens(text[m.taken..], ScanOf(m.mode), cur + Held(m.mode)[|Held(mode)|..], true)
  }

  lemma TokensInQuotes(text: string, mode: Mode, cur: string)
    requires text != [] && (mode.InQuote? || mode.InDouble?) && InQuotes(text, mode).Go? && !KeepsHere(text, mode)
    ensures Collects(text, mode, cur, true, InQuotes(text, mode))
  {
    assert Held(mode) + [] == Held(mode) && cur + [] == cur;
  }

  lemma TokensUnquoted(text: string, mode: Mode, cur: string, has: bool, declined: set<char>)
    requires text != [] && !mode.InQuote? && !mode.InDouble? && Tracks(mode, has) && Unquoted(text, mode, declined).Go?
    ensures var m := Unquoted(text, mode, declined);
      var rest := text[m.taken..];
      if IsBlank(text[0]) then
        Tokens(text, Plain, cur, has) == if has then [cur] + Tokens(rest, Plain, "", false) else Tokens(rest, Plain, cur, false)
      else if Continues(text) then
        Tokens(text, Plain, cur, has) == Tokens(rest, Plain, cur, cur != "")
      else Collects(text, mode, cur, has, m)
  {
    assert Held(mode) + [] == Held(mode) && cur + [] == cur;
  }

  /** What the tokenizer does over the characters of one step of the reader. */
  lemma TokensAdvance(text: string, mode: Mode, cur: string, has: bool, declined: set<char>)
    requires text != [] && Tracks(mode, has) && Advance(text, mode, declined).Go? && !KeepsHere(text, mode)
    ensures var m := Advance(text, mode, declined);
      var rest := text[m.taken..];
      if Breaks(text, mode) then
        Tokens(text, ScanOf(mode), cur, has) ==
          if has then [cur] + Tokens(rest, Plain, "", false) else Tokens(rest, Plain, cur, false)
      else if Joins(text, mode) then
        Tokens(text, ScanOf(mode), cur, has) == Tokens(rest, Plain, cur, cur != "")
      else Collects(text, mode, cur, has, m)
  {
    hide Tokens, InQuotes, Unquoted, Collects, KeepsHere, IsBlank;
    if mode.InQuote? || mode.InDouble? {
      TokensInQuotes(text, mode, cur);
    } else {
      TokensUnquoted(text, mode, cur, has, declined);
    }
  }

  lemma TokensKeep(text: string, mode: Mode, cur: string)
    requires KeepsHere(text, mode)
    ensures Tokens(text, Double, cur, true) == Tokens(text[2..], Double, cur + ['\\'] + [text[1]], true)
  {
    assert text[1..][1..] == text[2..] && text[1..][0] == text[1];
    assert Tokens(text, Double, cur, true) == Tokens(text[1..], Double, cur + ['\\'], true);
  }

  lemma ReadAdvance(text: string, mode: Mode, declined: set<char>)
    requires text != [] && Read(text, mode, declined).stop.End?
    ensures Advance(text, mode, declined).Go?
    ensures var m := Advance(text, mode, declined);
      var rest := Read(text[m.taken..], m.mode, declined);
      rest.stop.End? && Read(text, mode, declined).words == m.words + rest.words
  {
    hide Advance;
    HaltsBeforeEnd(text, mode, declined);
  }

  lemma HaltsBeforeEnd(text: string, mode: Mode, declined: set<char>)
    requires text != []
    ensures Advance(text, mode, declined).Halt? ==> !Advance(text, mode, declined).stop.End?
  {
  }

  lemma AtEnd(mode: Mode, cur: string, has: bool, declined: set<char>)
    requires Read("", mode, declined).stop.End?
    ensures Read("", mode, declined).words == Pending(mode)
    ensures Tokens("", ScanOf(mode), cur, has) == if has then [cur] else []
    ensures !DropsEmptyWord("", mode, declined) && !KeepsBackslash("", mode, declined)
  {
  }

  lemma FlawsAdvance(text: string, mode: Mode, declined: set<char>)
    requires text != [] && Advance(text, mode, declined).Go?
    ensures var m := Advance(text, mode, declined);
      && (DropsEmptyWord(text, mode, declined) <==>
            (mode == InWord("") && Continues(text) && WordEnds(text)) || DropsEmptyWord(text[m.taken..], m.mode, declined))
      && (KeepsBackslash(text, mode, declined) <==>
            KeepsHere(text, mode) || KeepsBackslash(text[m.taken..], m.mode, declined))
  {
    hide Advance, WordEnds;
  }

  lemma {:induction false} TokensFollowReading(text: string, mode: Mode, has: bool, declined: set<char>)
    requires Tracks(mode, has) && Read(text, mode, declined).stop.End? && !KeepsBackslash(text, mode, declined)
    ensures |Tokens(text, ScanOf(mode), Held(mode), has)| <= |Read(text, mode, declined).words|
    ensures Tokens(text, ScanOf(mode), Held(mode), has) == Read(text, mode, declined).words
       <==> !Forgot(text, mode, has) && !DropsEmptyWord(text, mode, declined)
    ensures Forgot(text, mode, has) || DropsEmptyWord(text, mode, declined)
       ==> |Tokens(text, ScanOf(mode), Held(mode), has)| < |Read(text, mode, declined).words|
    decreases |text|
  {
    hide Read, Tokens, Advance, DropsEmptyWord, KeepsBackslash;
    if text == [] {
      AtEnd(mode, Held(mode), has, declined);
    } else {
      ReadAdvance(text, mode, declined);
      var m := Advance(text, mode, declined);
      var rest := text[m.taken..];
      AdvanceMode(text, mode, declined);
      FlawsAdvance(text, mode, declined);
      TokensAdvance(text, mode, Held(mode), has, declined);
      if Breaks(text, mode) {
        TokensFollowReading(rest, Between, false, declined);
      } else if Joins(text, mode) {
        TokensFollowReading(rest, mode, Held(mode) != "", declined);
      } else {
        assert Held(mode) + Held(m.mode)[|Held(mode)|..] == Held(m.mode);
        TokensFollowReading(rest, m.mode, true, declined);
      }
    }
  }

  /** The characters of all words together. */
  function Chars(words: seq<string>): nat {
    if words == [] then 0 else |words[0]| + Chars(words[1..])
  }

  lemma CharsFront(word: string, words: seq<string>)
    ensures Chars([word] + words) == |word| + Chars(words)
  {
    assert ([word] + words)[1..] == words;
  }

  lemma CharsFew(word: string)
    ensures Chars([]) == 0 && Chars([word]) == |word|
  {
    assert [word][1..] == [];
  }

  /** `cur` is at least what the reader holds, and as empty. */
  predicate Covers(cur: string, mode: Mode) {
    |cur| >= |Held(mode)| && (cur == "" <==> Held(mode) == "")
  }

  /** The tokenizer never loses a character that the reader keeps, and has more of them once it has
      kept a backslash that the reader removed. */
  lemma {:induction false} TokensKeepCharacters(text: string, mode: Mode, cur: string, has: bool, declined: set<char>)
    requires Tracks(mode, has) && Covers(cur, mode) && Read(text, mode, declined).stop.End?
    ensures Chars(Tokens(text, ScanOf(mode), cur, has)) >= Chars(Read(text, mode, declined).words) + |cur| - |Held(mode)|
    ensures KeepsBackslash(text, mode, declined) ==>
      Chars(Tokens(text, ScanOf(mode), cur, has)) > Chars(Read(text, mode, declined).words) + |cur| - |Held(mode)|
    decreases |text|
  {
    hide Read, Tokens, Advance, DropsEmptyWord, KeepsBackslash, Chars, WordEnds;
    CharsFew(cur);
    CharsFew(Held(mode));
    if text == [] {
      AtEnd(mode, cur, has, declined);
    } else {
      ReadAdvance(text, mode, declined);
      var m := Advance(text, mode, declined);
      var rest := text[m.taken..];
      AdvanceMode(text, mode, declined);
      FlawsAdvance(text, mode, declined);
      if KeepsHere(text, mode) {
        TokensKeep(text, mode, cur);
        TokensKeepCharacters(rest, m.mode, cur + ['\\'] + [text[1]], true, declined);
        assert m.words + Read(rest, m.mode, declined).words == Read(rest, m.mode, declined).words;
      } else {
        TokensAdvance(text, mode, cur, has, declined);
        if Breaks(text, mode) {
          TokensKeepCharacters(rest, Between, "", false, declined);
          CharsFront(cur, Tokens(rest, Plain, "", false));
          CharsFront(Held(mode), Read(rest, Between, declined).words);
          assert [] + Read(rest, Between, declined).words == Read(rest, Between, declined).words;
        } else {
          assert m.words + Read(rest, m.mode, declined).words == Read(rest, m.mode, declined).words;
          if Joins(text, mode) {
            TokensKeepCharacters(rest, mode, cur, cur != "", declined);
          } else {
            TokensKeepCharacters(rest, m.mode, cur + Held(m.mode)[|Held(mode)|..], true, declined);
          }
        }
      }
    }
  }

  /** On text that sh reads as words only, the tokenizer returns those words unless it drops an empty
      one or keeps a backslash. */
  lemma TokenizerAgreesIff(text: string, declined: set<char>)
    requires Read(text, Between, declined).stop.End?
    ensures Tokens(text, Plain, "", false) == Read(text, Between, declined).words
       <==> !DropsEmptyWord(text, Between, declined) && !KeepsBackslash(text, Between, declined)
  {
    hide Read, Tokens, DropsEmptyWord, KeepsBackslash;
    TokensKeepCharacters(text, Between, "", false, declined);
    if !KeepsBackslash(text, Between, declined) {
      TokensFollowReading(text, Between, false, declined);
    }
  }

  lemma ContinuedEmptyWordIsLost()
    ensures Read("''\\\n", Between, {}) == Reading([""], End)
    ensures Tokens("''\\\n", Plain, "", false) == []
  {
    var t := "''\\\n";
    assert t[1..] == "'\\\n" && t[1..][1..] == "\\\n" && t[1..][1..][2..] == "";
  }

  lemma EscapedDollarIsRead()
    ensures Read("\"\\$\"", Between, {}) == Reading(["$"], End)
  {
    var t0, t1, t2 := "\"\\$\"", "\\$\"", "\"";
    assert t0[1..] == t1 && t1[2..] == t2 && t2[1..] == "";
    assert "" + ['$'] == "$";
    assert Advance(t0, Between, {}) == Go(1, InDouble(""), []);
    assert Advance(t1, InDouble(""), {}) == Go(2, InDouble("$"), []);
    assert Advance(t2, InDouble("$"), {}) == Go(1, InWord("$"), []);
    hide Advance;
    assert Read(t1, InDouble(""), {}) == Read(t2, InDouble("$"), {});
  }

  lemma EscapedDollarKeepsBackslash()
    ensures Read("\"\\$\"", Between, {}) == Reading(["$"], End)
    ensures Tokens("\"\\$\"", Plain, "", false) == ["\\$"]
  {
    EscapedDollarIsRead();
    hide Read;
    var t0, t1, t2, t3 := "\"\\$\"", "\\$\"", "$\"", "\"";
    assert t0[1..] == t1 && t1[1..] == t2 && t2[1..] == t3 && t3[1..] == "";
    assert "" + ['\\'] == "\\" && "\\" + ['$'] == "\\$";
    assert Tokens(t3, Double, "\\$", true) == ["\\$"];
    assert Tokens(t1, Double, "", true) == Tokens(t2, Double, "\\", true);
  }

  // ----- The tokenizer undoes the quoting -----

  lemma TokensStep(c: char, rest: string, scan: Scan, cur: string, has: bool)
    ensures scan.Single? && c == '\'' ==> Tokens([c] + rest, scan, cur, has) == Tokens(rest, Plain, cur, has)
    ensures scan.Single? && c != '\'' ==> Tokens([c] + rest, scan, cur, has) == Tokens(rest, Single, cur + [c], has)
    ensures scan.Plain? && c == '\'' ==> Tokens([c] + rest, scan, cur, has) == Tokens(rest, Single, cur, true)
    ensures scan.Plain? && c == ' ' && has ==>
      Tokens([c] + rest, scan, cur, has) == [cur] + Tokens(rest, Plain, "", false)
  {
    assert ([c] + rest)[1..] == rest;
  }

  lemma TokensEscaped(rest: string, cur: string, has: bool)
    ensures Tokens(['\\', '\''] + rest, Plain, cur, has) == Tokens(rest, Plain, cur + ['\''], true)
  {
    assert (['\\', '\''] + rest)[2..] == rest;
  }

  lemma {:induction false} TokensOfEscaped(s: string, rest: string, cur: string)
    ensures Tokens(Escaped(s) + rest, Single, cur, true) == Tokens(rest, Single, cur + s, true)
    decreases |s|
  {
    hide Tokens, Escaped;
    if s == [] {
      EscapedNothing(rest);
      assert cur + s == cur;
    } else {
      var tail := Escaped(s[1..]) + rest;
      EscapedFront(s, rest);
      TokensOfEscaped(s[1..], rest, cur + [s[0]]);
      assert cur + [s[0]] + s[1..] == cur + s;
      if s[0] == '\'' {
        TokensStep('\'', ['\\', '\''] + (['\''] + tail), Single, cur, true);
        TokensEscaped(['\''] + tail, cur, true);
        TokensStep('\'', tail, Plain, cur + ['\''], true);
      } else {
        TokensStep(s[0], tail, Single, cur, true);
      }
    }
  }

  lemma TokensOfOneWord(s: string, rest: string)
    ensures Tokens(ShQuote(s) + rest, Plain, "", false) == Tokens(rest, Plain, s, true)
  {
    hide Tokens, Escaped, ShQuote;
    QuotedFront(s, rest);
    TokensStep('\'', Escaped(s) + (['\''] + rest), Plain, "", false);
    TokensOfEscaped(s, ['\''] + rest, "");
    assert "" + s == s;
    TokensStep('\'', rest, Single, s, true);
  }

  lemma JoinNothing()
    ensures Join([]) == "" && Tokens("", Plain, "", false) == []
    ensures forall s :: Tokens("", Plain, s, true) == [s]
  {
  }

  lemma {:induction false} TokenizerUndoesQuoting(argv: seq<string>)
    ensures Tokens(Join(argv), Plain, "", false) == argv
    decreases |argv|
  {
    hide *;
    JoinNothing();
    if argv != [] {
      JoinFront(argv, "");
      assert Join(argv) + "" == Join(argv);
      if |argv| == 1 {
        TokensOfOneWord(argv[0], "");
        assert argv == [argv[0]];
      } else {
        var more := Join(argv[1..]);
        assert more + "" == more;
        TokensOfOneWord(argv[0], [' '] + more);
        TokensStep(' ', more, Plain, argv[0], true);
        TokenizerUndoesQuoting(argv[1..]);
        assert [argv[0]] + argv[1..] == argv;
      }
    }
  }
}
