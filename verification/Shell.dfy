/** The shell's parser: tokens, the grammar over tokens, and the recursive descent over characters. */
module Shell {

  const MAXARGS := 10

  datatype Mode = In | Out | App

  /** A parsed command; T is a string, or a stretch of the line. */
  datatype Cmd<T> =
    | Exec(argv: seq<T>)
    | Redir(cmd: Cmd<T>, file: T, mode: Mode)
    | Pipe(left: Cmd<T>, right: Cmd<T>)
    | List(left: Cmd<T>, right: Cmd<T>)
    | Back(cmd: Cmd<T>)

  datatype Result<+T> = Ok(value: T) | Err

  // ---- characters and tokens ----

  predicate White(c: char) { c == ' ' || c == '\t' || c == '\r' || c == '\n' || c == '\U{000B}' }

  predicate Symbol(c: char) { c == '<' || c == '|' || c == '>' || c == '&' || c == ';' || c == '(' || c == ')' }

  predicate InWord(c: char) { !White(c) && !Symbol(c) && c != '\0' }

  /** A line as the parser gets it: no NUL before its end. */
  predicate Line(s: string) { forall i | 0 <= i < |s| :: s[i] != '\0' }

  predicate IsWord(s: string) { s != [] && forall i | 0 <= i < |s| :: InWord(s[i]) }

  /** A symbol, >>, or a word. */
  datatype Tok = Op(c: char) | Append | Word(w: string)

  /** Where the word characters at the start of s end. */
  function WordEnd(s: string): (n: nat)
    ensures n <= |s| && (forall i | 0 <= i < n :: InWord(s[i])) && (n < |s| ==> !InWord(s[n]))
  {
    if s == [] || !InWord(s[0]) then 0 else 1 + WordEnd(s[1..])
  }

  function Tokens(s: string): (ts: seq<Tok>)
    decreases |s|
  {
    if s == [] then []
    else if White(s[0]) || s[0] == '\0' then Tokens(s[1..])
    else if s[0] == '>' && |s| > 1 && s[1] == '>' then [Append] + Tokens(s[2..])
    else if Symbol(s[0]) then [Op(s[0])] + Tokens(s[1..])
    else [Word(s[..WordEnd(s)])] + Tokens(s[WordEnd(s)..])
  }

  // ---- the grammar over tokens ----

  predicate Starts(ts: seq<Tok>, c: char) { ts != [] && ts[0] == Op(c) }

  /** The mode of a redirection that starts here. */
  function RedirMode(ts: seq<Tok>): (m: Result<Mode>) {
    if ts == [] then Err
    else if ts[0] == Op('<') then Ok(In)
    else if ts[0] == Op('>') then Ok(Out)
    else if ts[0] == Append then Ok(App) else Err
  }

  datatype File<T> = File(name: T, mode: Mode)

  function Redirs(ts: seq<Tok>): (r: Result<(seq<File<string>>, seq<Tok>)>)
    ensures r.Ok? ==> |r.value.1| <= |ts| && RedirMode(r.value.1).Err?
    decreases |ts|
  {
    if RedirMode(ts).Err? then Ok(([], ts))
    else if |ts| < 2 || !ts[1].Word? then Err
    else
      match Redirs(ts[2..])
      case Err => Err
      case Ok((fs, rest)) => Ok(([File(ts[1].w, RedirMode(ts).value)] + fs, rest))
  }

  /** A command inside its redirections, the first one innermost. */
  function Wrap<T>(c: Cmd<T>, fs: seq<File<T>>): (r: Cmd<T>) {
    if fs == [] then c else Redir(Wrap(c, fs[..|fs| - 1]), fs[|fs| - 1].name, fs[|fs| - 1].mode)
  }

  predicate EndsArgs(ts: seq<Tok>) {
    ts == [] || ts[0] == Op('|') || ts[0] == Op(')') || ts[0] == Op('&') || ts[0] == Op(';')
  }

  function Args(ts: seq<Tok>, argv: seq<string>, fs: seq<File<string>>): (r: Result<(Cmd<string>, seq<Tok>)>)
    ensures r.Ok? ==> |r.value.1| <= |ts|
    decreases |ts|
  {
    if EndsArgs(ts) then Ok((Wrap(Exec(argv), fs), ts))
    else if !ts[0].Word? || |argv| + 1 >= MAXARGS then Err
    else
      match Redirs(ts[1..])
      case Err => Err
      case Ok((more, rest)) => Args(rest, argv + [ts[0].w], fs + more)
  }

  function Simple(ts: seq<Tok>): (r: Result<(Cmd<string>, seq<Tok>)>)
    ensures r.Ok? ==> |r.value.1| <= |ts|
    decreases |ts|, 1
  {
    if Starts(ts, '(') then Block(ts)
    else match Redirs(ts) case Err => Err case Ok((fs, rest)) => Args(rest, [], fs)
  }

  function Block(ts: seq<Tok>): (r: Result<(Cmd<string>, seq<Tok>)>)
    requires Starts(ts, '(')
    ensures r.Ok? ==> |r.value.1| <= |ts|
    decreases |ts|, 0
  {
    match Sequence(ts[1..])
    case Err => Err
    case Ok((c, rest)) =>
      if !Starts(rest, ')') then Err
      else match Redirs(rest[1..]) case Err => Err case Ok((fs, rest2)) => Ok((Wrap(c, fs), rest2))
  }

  function Pipeline(ts: seq<Tok>): (r: Result<(Cmd<string>, seq<Tok>)>)
    ensures r.Ok? ==> |r.value.1| <= |ts|
    decreases |ts|, 2
  {
    match Simple(ts)
    case Err => Err
    case Ok((c, rest)) =>
      if !Starts(rest, '|') then Ok((c, rest))
      else match Pipeline(rest[1..]) case Err => Err case Ok((d, rest2)) => Ok((Pipe(c, d), rest2))
  }

  /** The command with a Back for every &. */
  function Backs(c: Cmd<string>, ts: seq<Tok>): (r: (Cmd<string>, seq<Tok>))
    ensures |r.1| <= |ts| && !Starts(r.1, '&')
    decreases |ts|
  {
    if Starts(ts, '&') then Backs(Back(c), ts[1..]) else (c, ts)
  }

  function Sequence(ts: seq<Tok>): (r: Result<(Cmd<string>, seq<Tok>)>)
    ensures r.Ok? ==> |r.value.1| <= |ts|
    decreases |ts|, 3
  {
    match Pipeline(ts)
    case Err => Err
    case Ok((c, rest)) =>
      var (d, rest2) := Backs(c, rest);
      if !Starts(rest2, ';') then Ok((d, rest2))
      else match Sequence(rest2[1..]) case Err => Err case Ok((e, rest3)) => Ok((List(d, e), rest3))
  }

  /** A whole line. */
  function Parse(ts: seq<Tok>): (r: Result<Cmd<string>>) {
    match Sequence(ts)
    case Err => Err
    case Ok((c, rest)) => if rest == [] then Ok(c) else Err
  }

  // ---- rendering ----

  /** The trees the parser can build. */
  predicate WellFormed(c: Cmd<string>) {
    match c
    case Exec(argv) => |argv| < MAXARGS && forall i | 0 <= i < |argv| :: IsWord(argv[i])
    case Redir(d, file, _) => IsWord(file) && WellFormed(d)
    case Pipe(l, r) => WellFormed(l) && WellFormed(r)
    case List(l, r) => WellFormed(l) && WellFormed(r)
    case Back(d) => WellFormed(d)
  }

  function ModeTok(m: Mode): (t: Tok) {
    match m case In => Op('<') case Out => Op('>') case App => Append
  }

  function WordToks(argv: seq<string>): (ts: seq<Tok>) {
    if argv == [] then [] else [Word(argv[0])] + WordToks(argv[1..])
  }

  function Paren(c: Cmd<string>): (ts: seq<Tok>)
    decreases c, 1
  {
    [Op('(')] + Render(c) + [Op(')')]
  }

  /** The fully parenthesised form of a tree. */
  function Render(c: Cmd<string>): (ts: seq<Tok>)
    decreases c, 0
  {
    match c
    case Exec(argv) => WordToks(argv)
    case Redir(d, file, mode) => Paren(d) + [ModeTok(mode), Word(file)]
    case Pipe(l, r) => Paren(l) + [Op('|')] + Paren(r)
    case List(l, r) => Paren(l) + [Op(';')] + Paren(r)
    case Back(d) => Paren(d) + [Op('&')]
  }

  /** What may follow a complete line inside the parser: a closing parenthesis or nothing. */
  predicate Closes(ts: seq<Tok>) { ts == [] || ts[0] == Op(')') }

  lemma {:induction false} ArgsWords(argv: seq<string>, done: seq<string>, rest: seq<Tok>)
    requires EndsArgs(rest) && |done| + |argv| < MAXARGS
    ensures Args(WordToks(argv) + rest, done, []) == Ok((Exec(done + argv), rest))
    decreases |argv|
  {
    var ts := WordToks(argv) + rest;
    if argv == [] {
      assert ts == rest && done + argv == done;
    } else {
      var more := WordToks(argv[1..]) + rest;
      assert ts[0] == Word(argv[0]) && ts[1..] == more;
      assert Redirs(more) == Ok(([], more)) by { NoRedir(argv[1..], rest); }
      var none: seq<File<string>> := [];
      assert none + none == none;
      ArgsWords(argv[1..], done + [argv[0]], rest);
      assert done + [argv[0]] + argv[1..] == done + argv;
    }
  }

  lemma NoRedir(argv: seq<string>, rest: seq<Tok>)
    requires EndsArgs(rest)
    ensures RedirMode(WordToks(argv) + rest).Err? && !Starts(WordToks(argv) + rest, '(')
  {
    if argv == [] { assert WordToks(argv) + rest == rest; }
  }

  /** A parenthesised command, and the redirections behind it. */
  lemma SimpleParen(c: Cmd<string>, rest: seq<Tok>)
    requires Sequence(Render(c) + ([Op(')')] + rest)) == Ok((c, [Op(')')] + rest))
    ensures Redirs(rest).Ok? ==> Simple(Paren(c) + rest) == Ok((Wrap(c, Redirs(rest).value.0), Redirs(rest).value.1))
  {
    var ts := Paren(c) + rest;
    assert ts[0] == Op('(') && ts[1..] == Render(c) + ([Op(')')] + rest);
    assert ([Op(')')] + rest)[1..] == rest;
  }

  lemma PlainParen(c: Cmd<string>, rest: seq<Tok>)
    requires Sequence(Render(c) + ([Op(')')] + rest)) == Ok((c, [Op(')')] + rest)) && RedirMode(rest).Err?
    ensures Simple(Paren(c) + rest) == Ok((c, rest))
  {
    SimpleParen(c, rest);
  }

  lemma PipelineEnds(ts: seq<Tok>, c: Cmd<string>, rest: seq<Tok>)
    requires Simple(ts) == Ok((c, rest)) && !Starts(rest, '|')
    ensures Pipeline(ts) == Ok((c, rest))
  {
    hide Simple;
  }

  lemma PipelineGoesOn(ts: seq<Tok>, c: Cmd<string>, rest: seq<Tok>, d: Cmd<string>, end: seq<Tok>)
    requires Simple(ts) == Ok((c, rest)) && Starts(rest, '|') && Pipeline(rest[1..]) == Ok((d, end))
    ensures Pipeline(ts) == Ok((Pipe(c, d), end))
  {
    hide Simple;
  }

  lemma SequenceEnds(ts: seq<Tok>, c: Cmd<string>, rest: seq<Tok>)
    requires Pipeline(ts) == Ok((c, rest)) && !Starts(rest, '&') && !Starts(rest, ';')
    ensures Sequence(ts) == Ok((c, rest))
  {
    hide Pipeline;
  }

  lemma SequenceGoesOn(ts: seq<Tok>, c: Cmd<string>, rest: seq<Tok>, d: Cmd<string>, end: seq<Tok>)
    requires Pipeline(ts) == Ok((c, rest)) && Starts(rest, ';') && Sequence(rest[1..]) == Ok((d, end))
    ensures Sequence(ts) == Ok((List(c, d), end))
  {
    hide Pipeline;
  }

  lemma SequenceBack(ts: seq<Tok>, c: Cmd<string>, rest: seq<Tok>)
    requires Pipeline(ts) == Ok((c, [Op('&')] + rest)) && !Starts(rest, '&') && !Starts(rest, ';')
    ensures Sequence(ts) == Ok((Back(c), rest))
  {
    hide Pipeline;
    assert ([Op('&')] + rest)[1..] == rest;
    assert Backs(c, [Op('&')] + rest) == Backs(Back(c), rest) == (Back(c), rest);
  }

  /** The parser recovers every tree it can build from the tree's fully parenthesised form. */
  lemma {:induction false} Recovered(c: Cmd<string>, rest: seq<Tok>)
    requires WellFormed(c) && Closes(rest)
    ensures Sequence(Render(c) + rest) == Ok((c, rest))
    decreases c, 1
  {
    match c {
      case Exec(argv) => RecoveredExec(argv, rest);
      case Redir(d, file, mode) => RecoveredRedir(d, file, mode, rest);
      case Pipe(l, r) => RecoveredPipe(l, r, rest);
      case List(l, r) => RecoveredList(l, r, rest);
      case Back(d) => RecoveredBack(d, rest);
    }
  }

  lemma RecoveredExec(argv: seq<string>, rest: seq<Tok>)
    requires |argv| < MAXARGS && Closes(rest)
    ensures Sequence(Render(Exec(argv)) + rest) == Ok((Exec(argv), rest))
  {
    hide Sequence, Pipeline, Args, WordToks;
    var ts := WordToks(argv) + rest;
    NoRedir(argv, rest);
    assert Redirs(ts) == Ok(([], ts));
    ArgsWords(argv, [], rest);
    assert [] + argv == argv;
    PipelineEnds(ts, Exec(argv), rest);
    SequenceEnds(ts, Exec(argv), rest);
  }

  lemma RecoveredRedir(d: Cmd<string>, file: string, mode: Mode, rest: seq<Tok>)
    requires WellFormed(d) && IsWord(file) && Closes(rest)
    ensures Sequence(Render(Redir(d, file, mode)) + rest) == Ok((Redir(d, file, mode), rest))
    decreases Redir(d, file, mode), 0
  {
    hide Sequence, Pipeline, Simple, WellFormed, Paren;
    var tail := [ModeTok(mode), Word(file)] + rest;
    Recovered(d, [Op(')')] + tail);
    SimpleParen(d, tail);
    assert Render(Redir(d, file, mode)) + rest == Paren(d) + tail;
    hide Render;
    assert tail[2..] == rest && Redirs(rest) == Ok(([], rest));
    var fs := [File(file, mode)] + [];
    assert Redirs(tail) == Ok((fs, rest));
    assert fs[..0] == [] && Wrap(d, fs) == Redir(d, file, mode);
    PipelineEnds(Paren(d) + tail, Redir(d, file, mode), rest);
    SequenceEnds(Paren(d) + tail, Redir(d, file, mode), rest);
  }

  lemma RecoveredPipe(l: Cmd<string>, r: Cmd<string>, rest: seq<Tok>)
    requires WellFormed(l) && WellFormed(r) && Closes(rest)
    ensures Sequence(Render(Pipe(l, r)) + rest) == Ok((Pipe(l, r), rest))
    decreases Pipe(l, r), 0
  {
    hide Sequence, Pipeline, Simple, WellFormed, Paren;
    var second := Paren(r) + rest;
    var tail := [Op('|')] + second;
    Recovered(l, [Op(')')] + tail);
    Recovered(r, [Op(')')] + rest);
    PlainParen(l, tail);
    PlainParen(r, rest);
    assert Render(Pipe(l, r)) + rest == Paren(l) + tail;
    assert tail[1..] == second;
    PipelineEnds(second, r, rest);
    PipelineGoesOn(Paren(l) + tail, l, tail, r, rest);
    SequenceEnds(Paren(l) + tail, Pipe(l, r), rest);
  }

  lemma RecoveredList(l: Cmd<string>, r: Cmd<string>, rest: seq<Tok>)
    requires WellFormed(l) && WellFormed(r) && Closes(rest)
    ensures Sequence(Render(List(l, r)) + rest) == Ok((List(l, r), rest))
    decreases List(l, r), 0
  {
    hide Sequence, Pipeline, Simple, WellFormed, Paren;
    var second := Paren(r) + rest;
    var tail := [Op(';')] + second;
    Recovered(l, [Op(')')] + tail);
    Recovered(r, [Op(')')] + rest);
    PlainParen(l, tail);
    PlainParen(r, rest);
    assert Render(List(l, r)) + rest == Paren(l) + tail;
    assert tail[1..] == second;
    PipelineEnds(second, r, rest);
    SequenceEnds(second, r, rest);
    PipelineEnds(Paren(l) + tail, l, tail);
    SequenceGoesOn(Paren(l) + tail, l, tail, r, rest);
  }

  lemma RecoveredBack(d: Cmd<string>, rest: seq<Tok>)
    requires WellFormed(d) && Closes(rest)
    ensures Sequence(Render(Back(d)) + rest) == Ok((Back(d), rest))
    decreases Back(d), 0
  {
    hide Sequence, Pipeline, Simple, WellFormed, Paren;
    var tail := [Op('&')] + rest;
    Recovered(d, [Op(')')] + tail);
    PlainParen(d, tail);
    assert Render(Back(d)) + rest == Paren(d) + tail;
    PipelineEnds(Paren(d) + tail, d, tail);
    SequenceBack(Paren(d) + tail, d, rest);
  }

  // ---- text ----

  /** A token as text, with a space behind it. */
  function Text(t: Tok): (s: string) {
    match t case Op(c) => [c, ' '] case Append => ">> " case Word(w) => w + [' ']
  }

  function Show(ts: seq<Tok>): (s: string) {
    if ts == [] then [] else Text(ts[0]) + Show(ts[1..])
  }

  predicate GoodTok(t: Tok) {
    match t case Op(c) => Symbol(c) case Append => true case Word(w) => IsWord(w)
  }

  lemma {:induction false} WordEndIs(w: string, s: string)
    requires IsWord(w) || w == []
    ensures WordEnd(w + [' '] + s) == |w|
  {
    if w != [] {
      assert (w + [' '] + s)[1..] == w[1..] + [' '] + s;
      WordEndIs(w[1..], s);
    }
  }

  /** The tokens of shown tokens are those tokens. */
  lemma {:induction false} TokensShow(ts: seq<Tok>)
    requires AllGood(ts)
    ensures Tokens(Show(ts)) == ts
    decreases |ts|
  {
    if ts != [] {
      var t, rest := ts[0], Show(ts[1..]);
      var s := Text(t) + rest;
      TokensShow(ts[1..]);
      hide Show;
      match t {
        case Op(c) =>
          assert s[0] == c && s[1] == ' ' && s[1..] == [' '] + rest && ([' '] + rest)[1..] == rest;
        case Append =>
          assert s[0] == '>' && s[1] == '>' && s[2..] == [' '] + rest && ([' '] + rest)[1..] == rest;
        case Word(w) =>
          WordEndIs(w, rest);
          assert s == w + [' '] + rest && s[..|w|] == w && s[|w|..] == [' '] + rest && ([' '] + rest)[1..] == rest;
          assert InWord(w[0]);
      }
    }
  }

  predicate AllGood(ts: seq<Tok>) { forall i | 0 <= i < |ts| :: GoodTok(ts[i]) }

  lemma GoodPlus(a: seq<Tok>, b: seq<Tok>)
    requires AllGood(a) && AllGood(b)
    ensures AllGood(a + b)
  {
  }

  lemma ParenGood(c: Cmd<string>)
    requires AllGood(Render(c))
    ensures AllGood(Paren(c))
  {
    GoodPlus([Op('(')], Render(c));
    GoodPlus([Op('(')] + Render(c), [Op(')')]);
  }

  lemma {:induction false} RenderGood(c: Cmd<string>)
    requires WellFormed(c)
    ensures AllGood(Render(c))
  {
    match c {
      case Exec(argv) => WordsGood(argv);
      case Redir(d, file, mode) =>
        RenderGood(d);
        ParenGood(d);
        GoodPlus(Paren(d), [ModeTok(mode), Word(file)]);
      case Pipe(l, r) =>
        RenderGood(l);
        RenderGood(r);
        PairGood(l, r, '|');
      case List(l, r) =>
        RenderGood(l);
        RenderGood(r);
        PairGood(l, r, ';');
      case Back(d) =>
        RenderGood(d);
        ParenGood(d);
        GoodPlus(Paren(d), [Op('&')]);
    }
  }

  lemma PairGood(l: Cmd<string>, r: Cmd<string>, c: char)
    requires AllGood(Render(l)) && AllGood(Render(r)) && Symbol(c)
    ensures AllGood(Paren(l) + [Op(c)] + Paren(r))
  {
    ParenGood(l);
    ParenGood(r);
    GoodPlus(Paren(l), [Op(c)]);
    GoodPlus(Paren(l) + [Op(c)], Paren(r));
  }

  lemma {:induction false} WordsGood(argv: seq<string>)
    requires forall i | 0 <= i < |argv| :: IsWord(argv[i])
    ensures AllGood(WordToks(argv))
  {
    if argv != [] {
      WordsGood(argv[1..]);
      GoodPlus([Word(argv[0])], WordToks(argv[1..]));
    }
  }

  /** Parsing the text of a tree's fully parenthesised form gives the tree back. */
  lemma RoundTrip(c: Cmd<string>)
    requires WellFormed(c)
    ensures Parse(Tokens(Show(Render(c)))) == Ok(c)
  {
    RenderGood(c);
    TokensShow(Render(c));
    Recovered(c, []);
    assert Render(c) + [] == Render(c);
  }

  // ---- the parser over characters ----

  /** A stretch of the line: from q up to eq. */
  datatype Span = Span(q: nat, eq: nat)

  /** A word of the line: word characters, ended by another character or by the end of the line. */
  predicate SpanOk(s: string, w: Span) {
    w.q < w.eq <= |s| && (forall i | w.q <= i < w.eq :: InWord(s[i])) && (w.eq < |s| ==> !InWord(s[w.eq]))
  }

  function Str(s: string, w: Span): (r: string) {
    if w.q <= w.eq <= |s| then s[w.q..w.eq] else []
  }

  function Strs(s: string, ws: seq<Span>): (r: seq<string>)
    ensures |r| == |ws|
  {
    if ws == [] then [] else Strs(s, ws[..|ws| - 1]) + [Str(s, ws[|ws| - 1])]
  }

  function StrFiles(s: string, fs: seq<File<Span>>): (r: seq<File<string>>)
    ensures |r| == |fs|
  {
    if fs == [] then [] else StrFiles(s, fs[..|fs| - 1]) + [File(Str(s, fs[|fs| - 1].name), fs[|fs| - 1].mode)]
  }

  /** The tree with the text of its stretches. */
  function TextOf(s: string, c: Cmd<Span>): (r: Cmd<string>) {
    match c
    case Exec(argv) => Exec(Strs(s, argv))
    case Redir(d, file, mode) => Redir(TextOf(s, d), Str(s, file), mode)
    case Pipe(l, r) => Pipe(TextOf(s, l), TextOf(s, r))
    case List(l, r) => List(TextOf(s, l), TextOf(s, r))
    case Back(d) => Back(TextOf(s, d))
  }

  predicate AllOk(s: string, ws: seq<Span>) { forall i | 0 <= i < |ws| :: SpanOk(s, ws[i]) }

  predicate FilesOk(s: string, fs: seq<File<Span>>) { forall i | 0 <= i < |fs| :: SpanOk(s, fs[i].name) }

  predicate SpansOk(s: string, c: Cmd<Span>) {
    match c
    case Exec(argv) => AllOk(s, argv)
    case Redir(d, file, _) => SpanOk(s, file) && SpansOk(s, d)
    case Pipe(l, r) => SpansOk(s, l) && SpansOk(s, r)
    case List(l, r) => SpansOk(s, l) && SpansOk(s, r)
    case Back(d) => SpansOk(s, d)
  }

  lemma {:induction false} WrapText(s: string, c: Cmd<Span>, fs: seq<File<Span>>)
    ensures TextOf(s, Wrap(c, fs)) == Wrap(TextOf(s, c), StrFiles(s, fs))
    ensures SpansOk(s, c) && FilesOk(s, fs) ==> SpansOk(s, Wrap(c, fs))
    decreases |fs|
  {
    if fs != [] {
      var init := fs[..|fs| - 1];
      WrapText(s, c, init);
      var r := StrFiles(s, fs);
      assert r[..|r| - 1] == StrFiles(s, init);
    }
  }

  lemma {:induction false} StrFilesPlus(s: string, a: seq<File<Span>>, b: seq<File<Span>>)
    ensures StrFiles(s, a + b) == StrFiles(s, a) + StrFiles(s, b)
    decreases |b|
  {
    if b == [] {
      assert a + b == a;
    } else {
      var init := b[..|b| - 1];
      assert (a + b)[..|a + b| - 1] == a + init;
      StrFilesPlus(s, a, init);
    }
  }

  lemma StrsPlus(s: string, ws: seq<Span>, w: Span)
    ensures Strs(s, ws + [w]) == Strs(s, ws) + [Str(s, w)]
  {
    assert (ws + [w])[..|ws|] == ws;
  }

  /** What the first character tells about the tokens. */
  lemma FirstTok(s: string)
    requires s != [] && Line(s) && !White(s[0])
    ensures var ts := Tokens(s);
            && ts != []
            && (Symbol(s[0]) && s[0] != '>' ==> ts == [Op(s[0])] + Tokens(s[1..]))
            && (s[0] == '>' && s[1..] != [] && s[1] == '>' ==> ts == [Append] + Tokens(s[2..]))
            && (s[0] == '>' && (s[1..] == [] || s[1] != '>') ==> ts == [Op('>')] + Tokens(s[1..]))
            && (!Symbol(s[0]) ==> WordEnd(s) > 0 && ts == [Word(s[..WordEnd(s)])] + Tokens(s[WordEnd(s)..]))
  {
  }

  method SkipWhite(s: string, p: nat) returns (q: nat)
    requires p <= |s|
    ensures p <= q <= |s| && Tokens(s[q..]) == Tokens(s[p..]) && (q < |s| ==> !White(s[q]))
  {
    q := p;
    while q < |s| && White(s[q])
      invariant p <= q <= |s| && Tokens(s[q..]) == Tokens(s[p..])
    {
      assert s[q..][1..] == s[q + 1..];
      q := q + 1;
    }
  }

  /** peek: whether the next character that is not white space is one of toks. */
  method Peek(s: string, p: nat, toks: string) returns (found: bool, q: nat)
    requires p <= |s| && Line(s)
    ensures p <= q <= |s| && Tokens(s[q..]) == Tokens(s[p..]) && (q < |s| ==> !White(s[q]))
    ensures found <==> q < |s| && s[q] in toks
    ensures q == |s| <==> Tokens(s[p..]) == []
    ensures forall c | Symbol(c) && c != '>' :: Starts(Tokens(s[p..]), c) <==> q < |s| && s[q] == c
    ensures RedirMode(Tokens(s[p..])).Ok? <==> q < |s| && (s[q] == '<' || s[q] == '>')
  {
    q := SkipWhite(s, p);
    found := q < |s| && s[q] in toks;
    if q < |s| {
      assert s[q..][0] == s[q];
      FirstTok(s[q..]);
    } else {
      assert s[q..] == [];
    }
  }

  /**
   * gettoken: the token's code ('\0' at the end, 'a' for a word, '+' for >>), its stretch, and where the next
   * begins.
   */
  method Gettoken(s: string, p: nat) returns (tok: char, w: Span, next: nat)
    requires p <= |s| && Line(s)
    ensures p <= next <= |s| && (tok == '\0' <==> Tokens(s[p..]) == [])
    ensures tok != '\0' ==> next > p && Tokens(s[p..]) != [] && Tokens(s[next..]) == Tokens(s[p..])[1..]
    ensures tok != '\0' ==>
              Tokens(s[p..])[0] == (if tok == 'a' then Word(Str(s, w)) else if tok == '+' then Append else Op(tok))
    ensures tok == 'a' ==> SpanOk(s, w)
    ensures tok == 'a' || tok == '+' || tok == '\0' || Symbol(tok)
  {
    hide Tokens;
    var q := SkipWhite(s, p);
    w := Span(q, q);
    if q == |s| {
      NoTokens();
      assert s[q..] == [];
      return '\0', w, q;
    }
    var t := s[q..];
    assert t[0] == s[q] && forall i | 0 <= i < |t| :: t[i] == s[q + i];
    FirstTok(t);
    var e := q;
    if s[q] == '>' && q + 1 < |s| && s[q + 1] == '>' {
      tok, e := '+', q + 2;
    } else if Symbol(s[q]) {
      tok, e := s[q], q + 1;
    } else {
      tok := 'a';
      e := WordStop(s, q);
    }
    assert t[e - q..] == s[e..];
    w := Span(q, e);
    assert t[..e - q] == s[q..e];
    next := SkipWhite(s, e);
  }

  lemma NoTokens()
    ensures Tokens([]) == []
  {
  }

  /** gettoken's loop over a word. */
  method WordStop(s: string, q: nat) returns (e: nat)
    requires q < |s| && Line(s) && InWord(s[q])
    ensures q < e <= |s| && e - q == WordEnd(s[q..]) && SpanOk(s, Span(q, e))
  {
    e := q;
    while e < |s| && !White(s[e]) && !Symbol(s[e])
      invariant q <= e <= |s| && e - q + WordEnd(s[e..]) == WordEnd(s[q..]) && (forall i | q <= i < e :: InWord(s[i]))
    {
      assert s[e..][0] == s[e] && s[e..][1..] == s[e + 1..];
      e := e + 1;
    }
    if e < |s| { assert s[e..][0] == s[e]; } else { assert s[e..] == []; }
  }

  /** A parsed command and where the parser stands, against what the grammar says about the tokens. */
  ghost predicate Agrees(s: string, r: Result<(Cmd<Span>, nat)>, p: nat, want: Result<(Cmd<string>, seq<Tok>)>) {
    if want.Err? then r.Err?
    else
      && r.Ok? && p <= r.value.1 <= |s| && Tokens(s[r.value.1..]) == want.value.1
      && TextOf(s, r.value.0) == want.value.0 && SpansOk(s, r.value.0)
  }

  /** A result with redirections put before it. */
  ghost function Prefixed(a: seq<File<string>>,
                          r: Result<(seq<File<string>>, seq<Tok>)>): (q: Result<(seq<File<string>>, seq<Tok>)>)
  {
    if r.Err? then Err else Ok((a + r.value.0, r.value.1))
  }

  lemma PrefixedNone(r: Result<(seq<File<string>>, seq<Tok>)>)
    ensures Prefixed([], r) == r
  {
    if r.Ok? { assert [] + r.value.0 == r.value.0; }
  }

  lemma PrefixedEnd(a: seq<File<string>>, ts: seq<Tok>)
    requires RedirMode(ts).Err?
    ensures Prefixed(a, Redirs(ts)) == Ok((a, ts))
  {
    assert a + [] == a;
  }

  lemma PrefixedNext(a: seq<File<string>>, ts: seq<Tok>)
    requires RedirMode(ts).Ok? && |ts| >= 2 && ts[1].Word?
    ensures Prefixed(a, Redirs(ts)) == Prefixed(a + [File(ts[1].w, RedirMode(ts).value)], Redirs(ts[2..]))
  {
    var f, r := File(ts[1].w, RedirMode(ts).value), Redirs(ts[2..]);
    if r.Ok? { assert a + ([f] + r.value.0) == a + [f] + r.value.0; }
  }

  /** parseredirs. */
  method ParseRedirs(s: string, p: nat) returns (r: Result<(seq<File<Span>>, nat)>)
    requires p <= |s| && Line(s)
    ensures r.Err? <==> Redirs(Tokens(s[p..])).Err?
    ensures r.Ok? ==> p <= r.value.1 <= |s| && FilesOk(s, r.value.0)
    ensures r.Ok? ==> (StrFiles(s, r.value.0), Tokens(s[r.value.1..])) == Redirs(Tokens(s[p..])).value
  {
    hide Tokens, Redirs, StrFiles, SpanOk, Str;
    var q := p;
    var fs: seq<File<Span>> := [];
    ghost var all := Redirs(Tokens(s[p..]));
    PrefixedNone(all);
    StrNone(s);
    while true
      invariant p <= q <= |s| && FilesOk(s, fs) && all == Prefixed(StrFiles(s, fs), Redirs(Tokens(s[q..])))
      decreases |s| - q
    {
      ghost var ts := Tokens(s[q..]);
      var found, at := Peek(s, q, "<>");
      if !found {
        PrefixedEnd(StrFiles(s, fs), ts);
        return Ok((fs, at));
      }
      var tok, w, q1 := Gettoken(s, at);
      var tok2, file, q2 := Gettoken(s, q1);
      if tok2 != 'a' {
        MissingFile(StrFiles(s, fs), ts);
        return Err;
      }
      var f := File(file, if tok == '<' then In else if tok == '>' then Out else App);
      assert ts[1..][1..] == ts[2..];
      StrFilesPlus(s, fs, [f]);
      StrOne(s, f);
      PrefixedNext(StrFiles(s, fs), ts);
      fs := fs + [f];
      q := q2;
    }
  }

  lemma StrNone(s: string)
    ensures StrFiles(s, []) == []
  {
  }

  lemma StrOne(s: string, f: File<Span>)
    ensures StrFiles(s, [f]) == [File(Str(s, f.name), f.mode)]
  {
  }

  lemma MissingFile(a: seq<File<string>>, ts: seq<Tok>)
    requires RedirMode(ts).Ok? && (|ts| < 2 || !ts[1].Word?)
    ensures Prefixed(a, Redirs(ts)) == Err
  {
  }

  /** parseexec: a parenthesised command, or words and redirections in any order. */
  method ParseExec(s: string, p: nat) returns (r: Result<(Cmd<Span>, nat)>)
    requires p <= |s| && Line(s)
    ensures Agrees(s, r, p, Simple(Tokens(s[p..])))
    decreases |s| - p, 1
  {
    hide Tokens, Redirs, StrFiles, SpanOk, Str, Args, Block, Strs, TextOf, SpansOk, Wrap;
    ghost var ts := Tokens(s[p..]);
    var found, at := Peek(s, p, "(");
    if found {
      r := ParseBlock(s, at);
      return;
    }
    var reds := ParseRedirs(s, at);
    if reds.Err? { return Err; }
    var fs, q := reds.value.0, reds.value.1;
    var argv: seq<Span> := [];
    NoStrs(s);
    while true
      invariant p <= q <= |s| && FilesOk(s, fs) && AllOk(s, argv)
      invariant Simple(ts) == Args(Tokens(s[q..]), Strs(s, argv), StrFiles(s, fs))
      decreases |s| - q
    {
      ghost var us := Tokens(s[q..]);
      found, at := Peek(s, q, "|)&;");
      if found {
        assert Starts(us, s[at]);
        ArgsEnd(s, us, argv, fs);
        return Ok((Wrap(Exec(argv), fs), at));
      }
      var tok, w, q1 := Gettoken(s, at);
      if tok == '\0' {
        ArgsEnd(s, us, argv, fs);
        return Ok((Wrap(Exec(argv), fs), at));
      }
      ArgsNext(us, Strs(s, argv), StrFiles(s, fs));
      if tok != 'a' { return Err; }
      StrsPlus(s, argv, w);
      argv := argv + [w];
      if |argv| >= MAXARGS { return Err; }
      reds := ParseRedirs(s, q1);
      if reds.Err? { return Err; }
      StrFilesPlus(s, fs, reds.value.0);
      fs, q := fs + reds.value.0, reds.value.1;
    }
  }

  lemma NoStrs(s: string)
    ensures Strs(s, []) == []
  {
  }

  lemma ArgsEnd(s: string, ts: seq<Tok>, argv: seq<Span>, fs: seq<File<Span>>)
    requires EndsArgs(ts) && AllOk(s, argv) && FilesOk(s, fs)
    ensures Args(ts, Strs(s, argv), StrFiles(s, fs)) == Ok((TextOf(s, Wrap(Exec(argv), fs)), ts))
    ensures SpansOk(s, Wrap(Exec(argv), fs))
  {
    WrapText(s, Exec(argv), fs);
  }

  lemma ArgsNext(ts: seq<Tok>, argv: seq<string>, fs: seq<File<string>>)
    requires !EndsArgs(ts)
    ensures !ts[0].Word? || |argv| + 1 >= MAXARGS ==> Args(ts, argv, fs).Err?
    ensures ts[0].Word? && |argv| + 1 < MAXARGS && Redirs(ts[1..]).Err? ==> Args(ts, argv, fs).Err?
    ensures ts[0].Word? && |argv| + 1 < MAXARGS && Redirs(ts[1..]).Ok? ==>
            Args(ts, argv, fs) == Args(Redirs(ts[1..]).value.1, argv + [ts[0].w], fs + Redirs(ts[1..]).value.0)
  {
  }

  /** parseblock. */
  method ParseBlock(s: string, p: nat) returns (r: Result<(Cmd<Span>, nat)>)
    requires p <= |s| && Line(s) && Starts(Tokens(s[p..]), '(')
    ensures Agrees(s, r, p, Block(Tokens(s[p..])))
    decreases |s| - p, 0
  {
    hide Tokens, Redirs, StrFiles, SpanOk, Str, Sequence, TextOf, SpansOk, Wrap;
    var tok, w, q := Gettoken(s, p);
    r := ParseLine(s, q);
    if r.Err? { return; }
    var c := r.value.0;
    var found, at := Peek(s, r.value.1, ")");
    if !found { return Err; }
    tok, w, q := Gettoken(s, at);
    var reds := ParseRedirs(s, q);
    if reds.Err? { return Err; }
    WrapText(s, c, reds.value.0);
    r := Ok((Wrap(c, reds.value.0), reds.value.1));
  }

  /** parsepipe. */
  method ParsePipe(s: string, p: nat) returns (r: Result<(Cmd<Span>, nat)>)
    requires p <= |s| && Line(s)
    ensures Agrees(s, r, p, Pipeline(Tokens(s[p..])))
    decreases |s| - p, 2
  {
    hide Tokens, SpanOk, Str, Simple;
    r := ParseExec(s, p);
    if r.Err? { return; }
    var c := r.value.0;
    var found, at := Peek(s, r.value.1, "|");
    if !found { return Ok((c, at)); }
    var tok, w, q := Gettoken(s, at);
    r := ParsePipe(s, q);
    if r.Ok? { r := Ok((Pipe(c, r.value.0), r.value.1)); }
  }

  /** parseline. */
  method ParseLine(s: string, p: nat) returns (r: Result<(Cmd<Span>, nat)>)
    requires p <= |s| && Line(s)
    ensures Agrees(s, r, p, Sequence(Tokens(s[p..])))
    decreases |s| - p, 3
  {
    hide Tokens, SpanOk, Str, Pipeline;
    r := ParsePipe(s, p);
    if r.Err? { return; }
    var c, q := r.value.0, r.value.1;
    ghost var backs := Backs(TextOf(s, c), Tokens(s[q..]));
    var found, at := Peek(s, q, "&");
    while found
      invariant p <= q <= at <= |s| && SpansOk(s, c) && backs == Backs(TextOf(s, c), Tokens(s[at..]))
      invariant found <==> Starts(Tokens(s[at..]), '&')
      decreases |s| - at, found
    {
      var tok, w;
      tok, w, q := Gettoken(s, at);
      c := Back(c);
      found, at := Peek(s, q, "&");
    }
    q := at;
    found, at := Peek(s, q, ";");
    if !found { return Ok((c, at)); }
    var tok, w;
    tok, w, q := Gettoken(s, at);
    r := ParseLine(s, q);
    if r.Ok? { r := Ok((List(c, r.value.0), r.value.1)); }
  }

  /** parsecmd up to nulterminate: it accepts exactly what the grammar does, with the grammar's tree. */
  method ParseWhole(s: string) returns (r: Result<Cmd<Span>>)
    requires Line(s)
    ensures r.Err? <==> Parse(Tokens(s)).Err?
    ensures r.Ok? ==> TextOf(s, r.value) == Parse(Tokens(s)).value && SpansOk(s, r.value)
  {
    hide Tokens, SpanOk, Str, Sequence, TextOf, SpansOk;
    assert s[0..] == s;
    var t := ParseLine(s, 0);
    if t.Err? { return Err; }
    var found, at := Peek(s, t.value.1, "");
    if at != |s| { return Err; }
    r := Ok(t.value.0);
  }

  // ---- what the parser builds ----

  predicate WordsOk(ts: seq<Tok>) { forall i | 0 <= i < |ts| && ts[i].Word? :: IsWord(ts[i].w) }

  lemma WordsOkPlus(t: Tok, ts: seq<Tok>)
    requires WordsOk(ts) && (t.Word? ==> IsWord(t.w))
    ensures WordsOk([t] + ts)
  {
  }

  lemma {:induction false} TokensOk(s: string)
    requires Line(s)
    ensures WordsOk(Tokens(s))
    decreases |s|
  {
    if s != [] {
      if White(s[0]) {
        TokensOk(s[1..]);
      } else if s[0] == '>' && |s| > 1 && s[1] == '>' {
        TokensOk(s[2..]);
        WordsOkPlus(Append, Tokens(s[2..]));
      } else if Symbol(s[0]) {
        TokensOk(s[1..]);
        WordsOkPlus(Op(s[0]), Tokens(s[1..]));
      } else {
        TokensOk(s[WordEnd(s)..]);
        WordsOkPlus(Word(s[..WordEnd(s)]), Tokens(s[WordEnd(s)..]));
      }
    }
  }

  predicate FileNamesOk(fs: seq<File<string>>) { forall i | 0 <= i < |fs| :: IsWord(fs[i].name) }

  lemma {:induction false} RedirsOk(ts: seq<Tok>)
    requires WordsOk(ts)
    ensures Redirs(ts).Ok? ==> FileNamesOk(Redirs(ts).value.0) && WordsOk(Redirs(ts).value.1)
    decreases |ts|
  {
    if RedirMode(ts).Ok? && |ts| >= 2 && ts[1].Word? { RedirsOk(ts[2..]); }
  }

  lemma {:induction false} WrapOk(c: Cmd<string>, fs: seq<File<string>>)
    requires WellFormed(c) && FileNamesOk(fs)
    ensures WellFormed(Wrap(c, fs))
    decreases |fs|
  {
    if fs != [] { WrapOk(c, fs[..|fs| - 1]); }
  }

  lemma {:induction false} ArgsOk(ts: seq<Tok>, argv: seq<string>, fs: seq<File<string>>)
    requires WordsOk(ts) && WellFormed(Exec(argv)) && FileNamesOk(fs)
    ensures Args(ts, argv, fs).Ok? ==> WellFormed(Args(ts, argv, fs).value.0) && WordsOk(Args(ts, argv, fs).value.1)
    decreases |ts|
  {
    if EndsArgs(ts) {
      WrapOk(Exec(argv), fs);
    } else if ts[0].Word? && |argv| + 1 < MAXARGS {
      RedirsOk(ts[1..]);
      if Redirs(ts[1..]).Ok? { ArgsOk(Redirs(ts[1..]).value.1, argv + [ts[0].w], fs + Redirs(ts[1..]).value.0); }
    }
  }

  predicate Good(r: Result<(Cmd<string>, seq<Tok>)>) { r.Ok? ==> WellFormed(r.value.0) && WordsOk(r.value.1) }

  lemma {:induction false} SimpleOk(ts: seq<Tok>)
    requires WordsOk(ts)
    ensures Good(Simple(ts))
    decreases |ts|, 1
  {
    if Starts(ts, '(') {
      BlockOk(ts);
    } else {
      RedirsOk(ts);
      if Redirs(ts).Ok? { ArgsOk(Redirs(ts).value.1, [], Redirs(ts).value.0); }
    }
  }

  lemma {:induction false} BlockOk(ts: seq<Tok>)
    requires WordsOk(ts) && Starts(ts, '(')
    ensures Good(Block(ts))
    decreases |ts|, 0
  {
    SequenceOk(ts[1..]);
    hide Sequence;
    if Sequence(ts[1..]).Ok? {
      var c, rest := Sequence(ts[1..]).value.0, Sequence(ts[1..]).value.1;
      if Starts(rest, ')') {
        RedirsOk(rest[1..]);
        if Redirs(rest[1..]).Ok? { WrapOk(c, Redirs(rest[1..]).value.0); }
      }
    }
  }

  lemma {:induction false} PipelineOk(ts: seq<Tok>)
    requires WordsOk(ts)
    ensures Good(Pipeline(ts))
    decreases |ts|, 2
  {
    SimpleOk(ts);
    hide Simple;
    if Simple(ts).Ok? && Starts(Simple(ts).value.1, '|') { PipelineOk(Simple(ts).value.1[1..]); }
  }

  lemma {:induction false} BacksOk(c: Cmd<string>, ts: seq<Tok>)
    requires WellFormed(c) && WordsOk(ts)
    ensures WellFormed(Backs(c, ts).0) && WordsOk(Backs(c, ts).1)
    decreases |ts|
  {
    if Starts(ts, '&') { BacksOk(Back(c), ts[1..]); }
  }

  lemma {:induction false} SequenceOk(ts: seq<Tok>)
    requires WordsOk(ts)
    ensures Good(Sequence(ts))
    decreases |ts|, 3
  {
    PipelineOk(ts);
    hide Pipeline;
    if Pipeline(ts).Ok? {
      BacksOk(Pipeline(ts).value.0, Pipeline(ts).value.1);
      var rest := Backs(Pipeline(ts).value.0, Pipeline(ts).value.1).1;
      if Starts(rest, ';') { SequenceOk(rest[1..]); }
    }
  }

  /** Whatever the parser makes of a line, it makes the same of the fully parenthesised form of its result. */
  lemma ParsedRoundTrip(s: string)
    requires Line(s) && Parse(Tokens(s)).Ok?
    ensures WellFormed(Parse(Tokens(s)).value)
    ensures Parse(Tokens(Show(Render(Parse(Tokens(s)).value)))) == Parse(Tokens(s))
  {
    hide Render, Show;
    TokensOk(s);
    SequenceOk(Tokens(s));
    RoundTrip(Parse(Tokens(s)).value);
  }

  // ---- nulterminate ----

  /** The places where nulterminate writes a NUL. */
  function Ends(c: Cmd<Span>): (r: set<nat>) {
    match c
    case Exec(argv) => set i | 0 <= i < |argv| :: argv[i].eq
    case Redir(d, file, _) => Ends(d) + {file.eq}
    case Pipe(l, r) => Ends(l) + Ends(r)
    case List(l, r) => Ends(l) + Ends(r)
    case Back(d) => Ends(d)
  }

  /** The words of a command. */
  function Words(c: Cmd<Span>): (r: set<Span>) {
    match c
    case Exec(argv) => set i | 0 <= i < |argv| :: argv[i]
    case Redir(d, file, _) => Words(d) + {file}
    case Pipe(l, r) => Words(l) + Words(r)
    case List(l, r) => Words(l) + Words(r)
    case Back(d) => Words(d)
  }

  /** The line with NULs at the given places, the last one included. */
  ghost predicate Cut(s: string, b: seq<char>, at: set<nat>) {
    |b| == |s| + 1 && forall i | 0 <= i < |b| :: b[i] == if i in at || i == |s| then '\0' else s[i]
  }

  /** nulterminate. */
  method Nulterminate(buf: array<char>, c: Cmd<Span>, ghost s: string, ghost done: set<nat>)
    requires SpansOk(s, c) && Cut(s, buf[..], done)
    modifies buf
    ensures Cut(s, buf[..], done + Ends(c))
    decreases c
  {
    match c {
      case Exec(argv) =>
        var i := 0;
        while i < |argv|
          invariant 0 <= i <= |argv| && Cut(s, buf[..], done + set j | 0 <= j < i :: argv[j].eq)
        {
          assert SpanOk(s, argv[i]);
          ghost var before := buf[..];
          buf[argv[i].eq] := '\0';
          assert buf[..] == before[argv[i].eq := '\0'];
          i := i + 1;
        }
      case Redir(d, file, _) =>
        Nulterminate(buf, d, s, done);
        ghost var before := buf[..];
        buf[file.eq] := '\0';
        assert buf[..] == before[file.eq := '\0'];
      case Pipe(l, r) =>
        Nulterminate(buf, l, s, done);
        Nulterminate(buf, r, s, done + Ends(l));
        assert done + Ends(l) + Ends(r) == done + (Ends(l) + Ends(r));
      case List(l, r) =>
        Nulterminate(buf, l, s, done);
        Nulterminate(buf, r, s, done + Ends(l));
        assert done + Ends(l) + Ends(r) == done + (Ends(l) + Ends(r));
      case Back(d) =>
        Nulterminate(buf, d, s, done);
    }
  }

  /** The C string at a place: up to the first NUL. */
  ghost predicate Reads(b: seq<char>, q: nat, w: string) {
    q + |w| < |b| && (forall i | 0 <= i < |w| :: b[q + i] == w[i] && w[i] != '\0') && b[q + |w|] == '\0'
  }

  /** No NUL falls inside a word, since words end at characters that are in no word. */
  lemma {:induction false} EndsOutside(s: string, c: Cmd<Span>, e: nat)
    requires SpansOk(s, c) && e in Ends(c)
    ensures e <= |s| && (e < |s| ==> !InWord(s[e]))
  {
    match c {
      case Exec(argv) =>
        var i :| 0 <= i < |argv| && argv[i].eq == e;
        assert SpanOk(s, argv[i]);
      case Redir(d, file, _) => if e in Ends(d) { EndsOutside(s, d, e); }
      case Pipe(l, r) => if e in Ends(l) { EndsOutside(s, l, e); } else { EndsOutside(s, r, e); }
      case List(l, r) => if e in Ends(l) { EndsOutside(s, l, e); } else { EndsOutside(s, r, e); }
      case Back(d) => EndsOutside(s, d, e);
    }
  }

  lemma {:induction false} WordsIn(s: string, c: Cmd<Span>, w: Span)
    requires SpansOk(s, c) && w in Words(c)
    ensures SpanOk(s, w) && w.eq in Ends(c)
  {
    match c {
      case Exec(argv) =>
        var i :| 0 <= i < |argv| && argv[i] == w;
        assert SpanOk(s, argv[i]);
      case Redir(d, file, _) => if w in Words(d) { WordsIn(s, d, w); }
      case Pipe(l, r) => if w in Words(l) { WordsIn(s, l, w); } else { WordsIn(s, r, w); }
      case List(l, r) => if w in Words(l) { WordsIn(s, l, w); } else { WordsIn(s, r, w); }
      case Back(d) => WordsIn(s, d, w);
    }
  }

  /** After nulterminate every argument and every file name reads exactly as its token. */
  lemma WordsRead(s: string, b: seq<char>, c: Cmd<Span>, w: Span)
    requires SpansOk(s, c) && Cut(s, b, Ends(c)) && w in Words(c)
    ensures Reads(b, w.q, Str(s, w))
  {
    WordsIn(s, c, w);
    forall i | w.q <= i < w.eq ensures b[i] == s[i] {
      if i in Ends(c) { EndsOutside(s, c, i); }
    }
  }

  /** parsecmd on the line's buffer, whose last place holds the NUL. */
  method ParseCmd(buf: array<char>) returns (r: Result<Cmd<Span>>)
    requires buf.Length > 0 && buf[buf.Length - 1] == '\0' && Line(buf[..buf.Length - 1])
    modifies buf
    ensures r.Err? <==> Parse(Tokens(old(buf[..buf.Length - 1]))).Err?
    ensures r.Ok? ==> TextOf(old(buf[..buf.Length - 1]), r.value) == Parse(Tokens(old(buf[..buf.Length - 1]))).value
    ensures r.Ok? ==> forall w | w in Words(r.value) :: Reads(buf[..], w.q, Str(old(buf[..buf.Length - 1]), w))
  {
    hide Tokens, Parse, TextOf, Reads, Str, SpansOk, Ends, Words;
    var s := buf[..buf.Length - 1];
    r := ParseWhole(s);
    if r.Ok? {
      Nulterminate(buf, r.value, s, {});
      assert {} + Ends(r.value) == Ends(r.value);
      forall w | w in Words(r.value) ensures Reads(buf[..], w.q, Str(s, w)) { WordsRead(s, buf[..], r.value, w); }
    }
  }
}
