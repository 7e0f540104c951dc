/**
 Quoting for generated scripts and command lines (cc-deck/internal/profile/wrapper.go:98-104), against the quoting rules
 of sections 2.2.1 (backslash) and 2.2.2 (single quotes) and the token recognition of section 2.3 of the POSIX.1-2017
 Shell Command Language.
 */
module ShQuote {
  import opened Wrappers

  // ---- The program's side ----

  function EscapeQuotes(s: string): string {
    if s == "" then "" else (if s[0] == '\'' then "'\\''" else [s[0]]) + EscapeQuotes(s[1..])
  }

  function Quote(s: string): string {
    "'" + (EscapeQuotes(s) + "'")
  }

  // ---- The shell's side ----

  predicate IsOperatorChar(c: char) {
    c == '|' || c == '&' || c == ';' || c == '<' || c == '>' || c == '(' || c == ')'
  }

  /** Blanks, line ends and operators end a word unless quoted. */
  predicate EndsWord(c: char) {
    c == ' ' || c == '\t' || c == '\n' || IsOperatorChar(c)
  }

  /**
   Unquoted, these start expansions, patterns or comments, which this reader does not follow. An equals or percent sign
   has a meaning only for what is done with a word, not for where it ends.
   */
  predicate IsExpansion(c: char) {
    c == '"' || c == '$' || c == '`' || c == '*' || c == '?' || c == '[' || c == '#' || c == '~'
  }

  datatype Word = Word(text: string, rest: string)

  /** Reads on outside quotes, after the part of the word that is read already. */
  function Unquoted(s: string, word: string): (w: Option<Word>)
    ensures w.Some? ==> |w.value.rest| <= |s|
    decreases |s|
  {
    if s == "" || EndsWord(s[0]) then Some(Word(word, s))
    else if s[0] == '\'' then Quoted(s[1..], word)
    else if s[0] == '\\' then
      if |s| == 1 then None
      else if s[1] == '\n' then Unquoted(s[2..], word)
      else Unquoted(s[2..], word + [s[1]])
    else if IsExpansion(s[0]) then None
    else Unquoted(s[1..], word + [s[0]])
  }

  /** Reads on inside single quotes, where every character but the quote stands for itself. */
  function Quoted(s: string, word: string): (w: Option<Word>)
    ensures w.Some? ==> |w.value.rest| < |s|
    decreases |s|
  {
    if s == "" then None
    else if s[0] == '\'' then Unquoted(s[1..], word)
    else Quoted(s[1..], word + [s[0]])
  }

  datatype Token = WordToken(text: string) | IoNumber(digits: string) | Operator(text: string)

  predicate IsLongOperator(op: string) {
    op in {"&&", "||", ";;", "<<", ">>", "<&", ">&", "<>", ">|"}
  }

  /** The longest operator at the start; a line end counts as one. */
  function OperatorAt(s: string): (op: string)
    requires s != "" && (IsOperatorChar(s[0]) || s[0] == '\n')
    ensures op != "" && op <= s
  {
    if |s| >= 3 && s[..3] == "<<-" then s[..3]
    else if |s| >= 2 && IsLongOperator(s[..2]) then s[..2]
    else s[..1]
  }

  predicate AllDigits(s: string) {
    forall c :: c in s ==> '0' <= c <= '9'
  }

  /** The tokens of a command (section 2.3). A number right before a redirection is part of it. */
  function Tokens(s: string): Option<seq<Token>>
    decreases |s|
  {
    if s == "" then Some([])
    else if s[0] == ' ' || s[0] == '\t' then Tokens(s[1..])
    else if EndsWord(s[0]) then
      var op := OperatorAt(s);
      Before(Operator(op), Tokens(s[|op|..]))
    else
      var word := Unquoted(s, "");
      if word.None? || |word.value.rest| >= |s| then None
      else
        var rest := word.value.rest;
        var redirects := rest != "" && (rest[0] == '<' || rest[0] == '>') && AllDigits(s[..|s| - |rest|]);
        Before(if redirects then IoNumber(word.value.text) else WordToken(word.value.text), Tokens(rest))
  }

  function Before(t: Token, ts: Option<seq<Token>>): Option<seq<Token>> {
    if ts.None? then None else Some([t] + ts.value)
  }

  // ---- Reading back what was quoted ----

  lemma {:induction false} ReadsEscaped(s: string, rest: string, word: string)
    ensures Quoted(EscapeQuotes(s) + ("'" + rest), word) == Unquoted(rest, word + s)
    decreases |s|
  {
    if s == "" {
      assert EscapeQuotes(s) + ("'" + rest) == "'" + rest;
      assert ("'" + rest)[1..] == rest && word + s == word;
    } else {
      var more := EscapeQuotes(s[1..]) + ("'" + rest);
      ReadsEscaped(s[1..], rest, word + [s[0]]);
      assert word + [s[0]] + s[1..] == word + s;
      if s[0] == '\'' {
        assert EscapeQuotes(s) + ("'" + rest) == "'\\''" + more;
        ReadsEscapedQuote(more, word);
      } else {
        assert EscapeQuotes(s) + ("'" + rest) == [s[0]] + more;
        assert ([s[0]] + more)[1..] == more;
      }
    }
  }

  /** Inside quotes, the escape closes them, adds one quote and opens them again. */
  lemma ReadsEscapedQuote(more: string, word: string)
    ensures Quoted("'\\''" + more, word) == Quoted(more, word + "'")
  {
    var all := "'\\''" + more;
    assert all[1..][2..] == "'" + more;
    assert ("'" + more)[1..] == more;
    assert all[1..] == "\\'" + ("'" + more);
    assert Unquoted(all[1..], word) == Unquoted("'" + more, word + "'");
  }

  /**
   Wherever a word is read outside quotes, a quoted string adds exactly its characters to the word, whatever the string
   is, whatever was read before it and whatever follows it.
   */
  lemma QuotedStringIsRead(s: string, rest: string, word: string)
    ensures Unquoted(Quote(s) + rest, word) == Unquoted(rest, word + s)
  {
    var inner := EscapeQuotes(s) + ("'" + rest);
    assert Quote(s) + rest == "'" + inner;
    assert ("'" + inner)[1..] == inner;
    ReadsEscaped(s, rest, word);
  }

  /** Alone or before something that ends words, it is read as the single word s. */
  lemma QuotedStringIsOneWord(s: string, rest: string)
    requires rest == "" || EndsWord(rest[0])
    ensures Unquoted(Quote(s) + rest, "") == Some(Word(s, rest))
  {
    QuotedStringIsRead(s, rest, "");
    assert "" + s == s;
  }

  // ---- The command lines that are built with quoted strings ----

  /** What the command lines are made of. */
  datatype Piece =
    | Bare(text: string)                     // written as it stands
    | Argument(value: string)                // quoted
    | Assignment(name: string, value: string) // a name, an equals sign and a quoted value
    | Op(op: string)
    | Redirect(fd: string, file: string)     // a number, > and a file name, without blanks
  {
    predicate Valid() {
      match this
      case Bare(text) => IsBare(text)
      case Argument(_) => true
      case Assignment(name, _) => IsBare(name)
      case Op(op) => op == "|" || op == "&&" || op == "||" || op == ">" || op == ">>" || op == "<"
      case Redirect(fd, file) => fd != "" && AllDigits(fd) && IsBare(file)
    }

    function Text(): string {
      match this
      case Bare(text) => text
      case Argument(value) => Quote(value)
      case Assignment(name, value) => name + ("=" + Quote(value))
      case Op(op) => op
      case Redirect(fd, file) => fd + (">" + file)
    }

    /** The tokens it stands for. */
    function Meaning(): seq<Token> {
      match this
      case Bare(text) => [WordToken(text)]
      case Argument(value) => [WordToken(value)]
      case Assignment(name, value) => [WordToken(name + "=" + value)]
      case Op(op) => [Operator(op)]
      case Redirect(fd, file) => [IoNumber(fd), Operator(">"), WordToken(file)]
    }
  }

  predicate IsOrdinary(c: char) {
    !EndsWord(c) && c != '\'' && c != '\\' && !IsExpansion(c)
  }

  predicate IsBare(text: string) {
    text != "" && forall k :: 0 <= k < |text| ==> IsOrdinary(text[k])
  }

  /** The pieces with a blank between any two. */
  function CommandLine(pieces: seq<Piece>): string {
    if pieces == [] then "" else if |pieces| == 1 then pieces[0].Text()
    else pieces[0].Text() + (" " + CommandLine(pieces[1..]))
  }

  function Meanings(pieces: seq<Piece>): seq<Token> {
    if pieces == [] then [] else pieces[0].Meaning() + Meanings(pieces[1..])
  }

  /** The end of the line, or a blank. */
  predicate AtBlank(rest: string) {
    rest == "" || rest[0] == ' '
  }

  lemma {:induction false} BareIsRead(text: string, rest: string, word: string)
    requires forall k :: 0 <= k < |text| ==> IsOrdinary(text[k])
    ensures Unquoted(text + rest, word) == Unquoted(rest, word + text)
    decreases |text|
  {
    if text == "" {
      assert text + rest == rest && word + text == word;
    } else {
      BareIsRead(text[1..], rest, word + [text[0]]);
      assert text + rest == [text[0]] + (text[1..] + rest);
      assert (text + rest)[1..] == text[1..] + rest;
      assert word + [text[0]] + text[1..] == word + text;
    }
  }

  /** A word token that ends at a blank, at the end, or before a redirection if it is not a number. */
  lemma WordIsToken(s: string, text: string, rest: string)
    requires s != "" && !EndsWord(s[0]) && Unquoted(s, "") == Some(Word(text, rest)) && |rest| < |s|
    requires AtBlank(rest)
    ensures Tokens(s) == Before(WordToken(text), Tokens(rest))
  {
  }

  lemma OperatorIsToken(op: string, rest: string)
    requires Op(op).Valid() && (AtBlank(rest) || (op == ">" && !EndsWord(rest[0])))
    ensures Tokens(op + rest) == Before(Operator(op), Tokens(rest))
  {
    var s := op + rest;
    assert s[..|op|] == op && s[|op|..] == rest;
    assert |op| == 1 && rest != "" ==> s[..2] == [op[0], rest[0]];
    assert |op| == 1 && |s| >= 3 ==> s[..3][1] == rest[0];
    assert |op| == 2 && |s| >= 3 ==> s[..3][0] == op[0];
    assert OperatorAt(s) == op;
  }

  lemma RedirectIsTokens(fd: string, file: string, rest: string)
    requires Redirect(fd, file).Valid() && AtBlank(rest)
    ensures Tokens(fd + (">" + (file + rest))) ==
      Before(IoNumber(fd), Before(Operator(">"), Before(WordToken(file), Tokens(rest))))
  {
    var more := ">" + (file + rest);
    var s := fd + more;
    assert forall k :: 0 <= k < |fd| ==> fd[k] in fd;
    BareIsRead(fd, more, "");
    assert "" + fd == fd;
    assert s[..|s| - |more|] == fd;
    assert Unquoted(s, "") == Some(Word(fd, more));
    assert s[0] in fd;
    assert Tokens(s) == Before(IoNumber(fd), Tokens(more));
    OperatorIsToken(">", file + rest);
    BareIsRead(file, rest, "");
    assert "" + file == file;
    WordIsToken(file + rest, file, rest);
  }

  /** One piece, read up to the blank after it. */
  lemma PieceIsRead(p: Piece, rest: string)
    requires p.Valid() && AtBlank(rest)
    ensures Tokens(p.Text() + rest) == if Tokens(rest).None? then None else Some(p.Meaning() + Tokens(rest).value)
  {
    match p {
      case Bare(text) =>
        BareIsRead(text, rest, "");
        assert "" + text == text;
        WordIsToken(text + rest, text, rest);
      case Argument(value) =>
        QuotedStringIsOneWord(value, rest);
        WordIsToken(Quote(value) + rest, value, rest);
      case Assignment(name, value) =>
        AssignmentIsRead(name, value, rest);
      case Op(op) =>
        OperatorIsToken(op, rest);
      case Redirect(fd, file) =>
        RedirectIsRead(fd, file, rest);
    }
  }

  lemma RedirectIsRead(fd: string, file: string, rest: string)
    requires Redirect(fd, file).Valid() && AtBlank(rest)
    ensures Tokens(fd + (">" + file) + rest) == if Tokens(rest).None? then None
      else Some([IoNumber(fd), Operator(">"), WordToken(file)] + Tokens(rest).value)
  {
    assert fd + (">" + file) + rest == fd + (">" + (file + rest));
    RedirectIsTokens(fd, file, rest);
    if Tokens(rest).Some? {
      ThreeTokens(IoNumber(fd), Operator(">"), WordToken(file), Tokens(rest).value);
    }
  }

  lemma ThreeTokens(a: Token, b: Token, c: Token, others: seq<Token>)
    ensures [a] + ([b] + ([c] + others)) == [a, b, c] + others
  {
  }

  lemma AssignmentIsRead(name: string, value: string, rest: string)
    requires IsBare(name) && AtBlank(rest)
    ensures Tokens(name + ("=" + Quote(value)) + rest) == Before(WordToken(name + "=" + value), Tokens(rest))
  {
    var prefix := name + "=";
    assert name + ("=" + Quote(value)) + rest == prefix + (Quote(value) + rest);
    BareIsRead(prefix, Quote(value) + rest, "");
    assert "" + prefix == prefix;
    QuotedStringIsRead(value, rest, prefix);
    WordIsToken(prefix + (Quote(value) + rest), prefix + value, rest);
  }

  /**
   Every command line of such pieces, whatever strings are quoted in it, is read as exactly the tokens of the pieces,
   with none lost, split or joined.
   */
  lemma {:induction false} CommandLineIsReadBack(pieces: seq<Piece>)
    requires AllValid(pieces)
    ensures Tokens(CommandLine(pieces)) == Some(Meanings(pieces))
  {
    if |pieces| == 1 {
      PieceIsRead(pieces[0], "");
      assert pieces[0].Text() + "" == pieces[0].Text();
      assert Meanings(pieces[1..]) == [];
    } else if pieces != [] {
      CommandLineIsReadBack(pieces[1..]);
      var rest := " " + CommandLine(pieces[1..]);
      assert rest[1..] == CommandLine(pieces[1..]);
      assert Tokens(rest) == Some(Meanings(pieces[1..]));
      PieceIsRead(pieces[0], rest);
    }
  }

  // ---- The command lines of the program ----

  predicate AllValid(pieces: seq<Piece>) {
    forall k :: 0 <= k < |pieces| ==> pieces[k].Valid()
  }

  lemma OneMorePiece(p: Piece, pieces: seq<Piece>)
    requires pieces != [] && p.Valid() && AllValid(pieces)
    ensures CommandLine([p] + pieces) == p.Text() + (" " + CommandLine(pieces)) && AllValid([p] + pieces)
  {
    assert ([p] + pieces)[1..] == pieces;
  }

  /** The words of the program's lines that need no quotes. */
  lemma ProgramWords()
    ensures IsBare("grep") && IsBare("-qF") && IsBare("echo") && Redirect("2", "/dev/null").Valid()
  {
    assert IsBare("/dev/null");
  }

  lemma SearchText(line: string)
    ensures "grep" + (" " + ("-qF" + (" " + line))) == "grep -qF " + line
  {
  }

  lemma GuardText(line: string)
    ensures " " + (Redirect("2", "/dev/null").Text() + (" " + ("||" + (" " + line)))) == " 2>/dev/null || " + line
  {
    var target := ">" + "/dev/null";
    assert target == ">/dev/null";
    assert "2" + target == "2>/dev/null";
    var operator := " " + ("||" + (" " + line));
    assert operator == " || " + line;
    assert " " + ("2>/dev/null" + operator) == " 2>/dev/null || " + line;
  }

  lemma AppendText(block: string, path: string)
    ensures "echo" + (" " + (block + (" " + (">>" + (" " + path))))) == "echo " + (block + (" >> " + path))
  {
    assert " " + (">>" + (" " + path)) == " >> " + path;
  }

  /** The lines of a wrapper that set a variable (cc-deck/internal/profile/claude.go:96). */
  function ExportLine(name: string, value: string): string {
    "export " + (name + ("=" + Quote(value)))
  }

  lemma ExportLineIsCommand(name: string, value: string)
    requires IsBare(name)
    ensures var pieces := [Bare("export")] + [Assignment(name, value)];
      AllValid(pieces) && CommandLine(pieces) == ExportLine(name, value)
  {
    OneMorePiece(Bare("export"), [Assignment(name, value)]);
    assert "export" + (" " + Assignment(name, value).Text()) == ExportLine(name, value);
  }

  /** The lines that create directories (cc-deck/internal/profile/sync.go:224 and 328-329). */
  function MkdirLine(dir: string): string {
    "mkdir -p " + Quote(dir)
  }

  lemma MkdirLineIsCommand(dir: string)
    ensures var pieces := [Bare("mkdir")] + ([Bare("-p")] + [Argument(dir)]);
      AllValid(pieces) && CommandLine(pieces) == MkdirLine(dir)
  {
    OneMorePiece(Bare("-p"), [Argument(dir)]);
    OneMorePiece(Bare("mkdir"), [Bare("-p")] + [Argument(dir)]);
    assert "mkdir" + (" " + ("-p" + (" " + Quote(dir)))) == MkdirLine(dir);
  }

  /** The line that appends a block to a file unless a marker is in it (cc-deck/internal/profile/sync.go:431-437). */
  function CheckLine(marker: string, path: string, block: string): string {
    "grep -qF " + (Quote(marker) + (" " + GuardPart(path, AppendPart(path, block))))
  }

  function GuardPart(path: string, command: string): string {
    Quote(path) + (" 2>/dev/null || " + command)
  }

  function AppendPart(path: string, block: string): string {
    "echo " + (Quote(block) + (" >> " + Quote(path)))
  }

  function AppendPieces(path: string, block: string): seq<Piece> {
    [Bare("echo")] + ([Argument(block)] + ([Op(">>")] + [Argument(path)]))
  }

  function GuardPieces(path: string, command: seq<Piece>): seq<Piece> {
    [Argument(path)] + ([Redirect("2", "/dev/null")] + ([Op("||")] + command))
  }

  function CheckPieces(marker: string, path: string, block: string): seq<Piece> {
    [Bare("grep")] + ([Bare("-qF")] + ([Argument(marker)] + GuardPieces(path, AppendPieces(path, block))))
  }

  lemma AppendPartIsCommand(path: string, block: string)
    ensures AllValid(AppendPieces(path, block))
    ensures CommandLine(AppendPieces(path, block)) == AppendPart(path, block)
  {
    ProgramWords();
    OneMorePiece(Op(">>"), [Argument(path)]);
    OneMorePiece(Argument(block), [Op(">>")] + [Argument(path)]);
    OneMorePiece(Bare("echo"), [Argument(block)] + ([Op(">>")] + [Argument(path)]));
    AppendText(Quote(block), Quote(path));
  }

  lemma GuardPartIsCommand(path: string, command: seq<Piece>)
    requires command != [] && AllValid(command)
    ensures AllValid(GuardPieces(path, command))
    ensures CommandLine(GuardPieces(path, command)) == GuardPart(path, CommandLine(command))
  {
    var discard := Redirect("2", "/dev/null");
    ProgramWords();
    OneMorePiece(Op("||"), command);
    OneMorePiece(discard, [Op("||")] + command);
    OneMorePiece(Argument(path), [discard] + ([Op("||")] + command));
    GuardText(CommandLine(command));
  }

  lemma CheckLineIsCommand(marker: string, path: string, block: string)
    ensures AllValid(CheckPieces(marker, path, block))
    ensures CommandLine(CheckPieces(marker, path, block)) == CheckLine(marker, path, block)
  {
    var guard := GuardPieces(path, AppendPieces(path, block));
    AppendPartIsCommand(path, block);
    GuardPartIsCommand(path, AppendPieces(path, block));
    SearchIsCommand(marker, guard);
  }

  lemma SearchIsCommand(marker: string, others: seq<Piece>)
    requires others != [] && AllValid(others)
    ensures AllValid([Bare("grep")] + ([Bare("-qF")] + ([Argument(marker)] + others)))
    ensures CommandLine([Bare("grep")] + ([Bare("-qF")] + ([Argument(marker)] + others))) ==
      "grep -qF " + (Quote(marker) + (" " + CommandLine(others)))
  {
    var search := [Argument(marker)] + others;
    ProgramWords();
    OneMorePiece(Argument(marker), others);
    OneMorePiece(Bare("-qF"), search);
    OneMorePiece(Bare("grep"), [Bare("-qF")] + search);
    SearchText(CommandLine(search));
  }

  /**
   So the shell splits the lines of the program into the tokens of their pieces, whatever strings are quoted in them:
   every quoted string comes back as one word, and the redirections and operators between them stay what they are.
   */
  lemma ProgramLinesAreReadBack(name: string, value: string, dir: string, marker: string, path: string, block: string)
    requires IsBare(name)
    ensures Tokens(ExportLine(name, value)) == Some(Meanings([Bare("export")] + [Assignment(name, value)]))
    ensures Tokens(MkdirLine(dir)) == Some(Meanings([Bare("mkdir")] + ([Bare("-p")] + [Argument(dir)])))
    ensures Tokens(CheckLine(marker, path, block)) == Some(Meanings(CheckPieces(marker, path, block)))
  {
    ExportLineIsCommand(name, value);
    MkdirLineIsCommand(dir);
    CheckLineIsCommand(marker, path, block);
    CommandLineIsReadBack([Bare("export")] + [Assignment(name, value)]);
    CommandLineIsReadBack([Bare("mkdir")] + ([Bare("-p")] + [Argument(dir)]));
    CommandLineIsReadBack(CheckPieces(marker, path, block));
  }

  lemma CheckLineTokens(marker: string, path: string, block: string)
    ensures Meanings(CheckPieces(marker, path, block)) ==
      [WordToken("grep"), WordToken("-qF"), WordToken(marker), WordToken(path),
       IoNumber("2"), Operator(">"), WordToken("/dev/null"), Operator("||"),
       WordToken("echo"), WordToken(block), Operator(">>"), WordToken(path)]
  {
    var append := AppendPieces(path, block);
    var guard := GuardPieces(path, append);
    OneMoreMeaning(Op(">>"), [Argument(path)]);
    OneMoreMeaning(Argument(block), [Op(">>")] + [Argument(path)]);
    OneMoreMeaning(Bare("echo"), [Argument(block)] + ([Op(">>")] + [Argument(path)]));
    OneMoreMeaning(Op("||"), append);
    OneMoreMeaning(Redirect("2", "/dev/null"), [Op("||")] + append);
    OneMoreMeaning(Argument(path), [Redirect("2", "/dev/null")] + ([Op("||")] + append));
    OneMoreMeaning(Argument(marker), guard);
    OneMoreMeaning(Bare("-qF"), [Argument(marker)] + guard);
    OneMoreMeaning(Bare("grep"), [Bare("-qF")] + ([Argument(marker)] + guard));
  }

  lemma OneMoreMeaning(p: Piece, pieces: seq<Piece>)
    ensures Meanings([p] + pieces) == p.Meaning() + Meanings(pieces)
  {
    assert ([p] + pieces)[1..] == pieces;
  }
}
