/**
 * The shell's language as its users write it: what a line may look like, what it means, and that the parser reads
 * exactly such lines and gives them that meaning.
 */
module ShellGrammar {
  import opened Shell

  /** What a simple command is made of, in any order: arguments and redirections. */
  datatype Item = Arg(w: string) | Into(f: File<string>)

  /** A simple command, or a line in parentheses with redirections behind it. */
  datatype Part = Plain(items: seq<Item>) | Group(text: Text, files: seq<File<string>>)

  datatype Pipes = Last(part: Part) | More(part: Part, rest: Pipes)

  /** A pipeline and its ampersands, alone or with a semicolon and more behind it. */
  datatype Text = Single(pipes: Pipes, amps: nat) | Semi(pipes: Pipes, amps: nat, next: Text)

  // ---- spelling ----

  function FileToks(files: seq<File<string>>): (ts: seq<Tok>) {
    if files == [] then [] else [ModeTok(files[0].mode), Word(files[0].name)] + FileToks(files[1..])
  }

  function ItemToks(items: seq<Item>): (ts: seq<Tok>) {
    if items == [] then []
    else
      match items[0]
      case Arg(w) => [Word(w)] + ItemToks(items[1..])
      case Into(f) => [ModeTok(f.mode), Word(f.name)] + ItemToks(items[1..])
  }

  function PartToks(p: Part): (ts: seq<Tok>) {
    match p
    case Plain(items) => ItemToks(items)
    case Group(t, files) => [Op('(')] + (TextToks(t) + ([Op(')')] + FileToks(files)))
  }

  function PipesToks(q: Pipes): (ts: seq<Tok>) {
    match q
    case Last(p) => PartToks(p)
    case More(p, rest) => PartToks(p) + ([Op('|')] + PipesToks(rest))
  }

  function AmpToks(k: nat): (ts: seq<Tok>) { if k == 0 then [] else [Op('&')] + AmpToks(k - 1) }

  function TextToks(t: Text): (ts: seq<Tok>) {
    match t
    case Single(q, k) => PipesToks(q) + AmpToks(k)
    case Semi(q, k, next) => PipesToks(q) + (AmpToks(k) + ([Op(';')] + TextToks(next)))
  }

  // ---- meaning ----

  function Words(items: seq<Item>): (argv: seq<string>) {
    if items == [] then [] else (if items[0].Arg? then [items[0].w] else []) + Words(items[1..])
  }

  function FilesOf(items: seq<Item>): (fs: seq<File<string>>) {
    if items == [] then [] else (if items[0].Into? then [items[0].f] else []) + FilesOf(items[1..])
  }

  /** Every redirection goes around what the ones before it went around. */
  function Around(c: Cmd<string>, files: seq<File<string>>): (r: Cmd<string>)
    decreases |files|
  {
    if files == [] then c else Around(Redir(c, files[0].name, files[0].mode), files[1..])
  }

  function PartMeans(p: Part): (c: Cmd<string>) {
    match p
    case Plain(items) => Around(Exec(Words(items)), FilesOf(items))
    case Group(t, files) => Around(Means(t), files)
  }

  function PipesMean(q: Pipes): (c: Cmd<string>) {
    match q
    case Last(p) => PartMeans(p)
    case More(p, rest) => Pipe(PartMeans(p), PipesMean(rest))
  }

  function Amps(c: Cmd<string>, k: nat): (r: Cmd<string>) { if k == 0 then c else Back(Amps(c, k - 1)) }

  function Means(t: Text): (c: Cmd<string>) {
    match t
    case Single(q, k) => Amps(PipesMean(q), k)
    case Semi(q, k, next) => List(Amps(PipesMean(q), k), Means(next))
  }

  // ---- what the parser accepts: fewer than MAXARGS arguments ----

  predicate PartFits(p: Part) {
    match p
    case Plain(items) => |Words(items)| < MAXARGS
    case Group(t, _) => Fits(t)
  }

  predicate PipesFit(q: Pipes) {
    match q
    case Last(p) => PartFits(p)
    case More(p, rest) => PartFits(p) && PipesFit(rest)
  }

  predicate Fits(t: Text) {
    match t
    case Single(q, _) => PipesFit(q)
    case Semi(q, _, next) => PipesFit(q) && Fits(next)
  }

  // ---- the parser reads every such line ----

  lemma {:induction false} AroundIsWrap(c: Cmd<string>, files: seq<File<string>>)
    ensures Around(c, files) == Wrap(c, files)
    decreases |files|
  {
    if files != [] {
      AroundIsWrap(Redir(c, files[0].name, files[0].mode), files[1..]);
      WrapFirst(c, files);
    }
  }

  lemma {:induction false} WrapFirst(c: Cmd<string>, files: seq<File<string>>)
    requires files != []
    ensures Wrap(c, files) == Wrap(Redir(c, files[0].name, files[0].mode), files[1..])
    decreases |files|
  {
    var last := |files| - 1;
    if last > 0 {
      WrapFirst(c, files[..last]);
      assert files[..last][1..] == files[1..][..last - 1];
    } else {
      assert files[..0] == [] && files[1..] == [];
    }
  }

  lemma {:induction false} RedirsRead(files: seq<File<string>>, rest: seq<Tok>)
    requires RedirMode(rest).Err?
    ensures Redirs(FileToks(files) + rest) == Ok((files, rest))
    decreases |files|
  {
    var ts := FileToks(files) + rest;
    if files == [] {
      assert ts == rest;
    } else {
      RedirsRead(files[1..], rest);
      assert ts[0] == ModeTok(files[0].mode) && ts[1] == Word(files[0].name) && ts[2..] == FileToks(files[1..]) + rest;
      assert files == [files[0]] + files[1..];
    }
  }

  lemma ArgRead(w: string, more: seq<Tok>, argv: seq<string>, fs: seq<File<string>>)
    requires |argv| + 1 < MAXARGS && Redirs(more).Ok?
    ensures Redirs([Word(w)] + more) == Ok(([], [Word(w)] + more))
    ensures Args([Word(w)] + more, argv, fs) == Args(Redirs(more).value.1, argv + [w], fs + Redirs(more).value.0)
  {
    var ts := [Word(w)] + more;
    assert ts[0] == Word(w) && ts[1..] == more;
  }

  lemma IntoRead(f: File<string>, more: seq<Tok>)
    requires Redirs(more).Ok?
    ensures Redirs([ModeTok(f.mode), Word(f.name)] + more) == Ok(([f] + Redirs(more).value.0, Redirs(more).value.1))
  {
    var ts := [ModeTok(f.mode), Word(f.name)] + more;
    assert ts[0] == ModeTok(f.mode) && ts[1] == Word(f.name) && ts[2..] == more;
  }

  lemma NoneRead(rest: seq<Tok>, argv: seq<string>, fs: seq<File<string>>)
    requires EndsArgs(rest)
    ensures Redirs(rest) == Ok(([], rest)) && Args(rest, argv, fs) == Ok((Wrap(Exec(argv), fs), rest))
  {
  }

  /** Redirections, then arguments with redirections behind them, from the middle of a simple command on. */
  lemma {:induction false} ItemsRead(items: seq<Item>, rest: seq<Tok>, argv: seq<string>, fs: seq<File<string>>)
    requires EndsArgs(rest) && |argv| + |Words(items)| < MAXARGS
    ensures var ts := ItemToks(items) + rest;
            && Redirs(ts).Ok?
            && Args(Redirs(ts).value.1, argv, fs + Redirs(ts).value.0) ==
               Ok((Wrap(Exec(argv + Words(items)), fs + FilesOf(items)), rest))
    decreases |items|
  {
    hide Redirs, Args, Wrap, EndsArgs;
    var ts := ItemToks(items) + rest;
    if items == [] {
      NoneRead(rest, argv, fs);
      assert ts == rest && argv + Words(items) == argv && fs + FilesOf(items) == fs && fs + [] == fs;
    } else {
      var more := ItemToks(items[1..]) + rest;
      match items[0] {
        case Arg(w) =>
          ItemsRead(items[1..], rest, argv + [w], fs);
          ArgRead(w, more, argv, fs);
          assert ts == [Word(w)] + more && fs + [] == fs;
          assert argv + [w] + Words(items[1..]) == argv + Words(items) && FilesOf(items[1..]) == FilesOf(items);
        case Into(f) =>
          ItemsRead(items[1..], rest, argv, fs + [f]);
          IntoRead(f, more);
          assert ts == [ModeTok(f.mode), Word(f.name)] + more;
          assert fs + ([f] + Redirs(more).value.0) == fs + [f] + Redirs(more).value.0;
          assert fs + [f] + FilesOf(items[1..]) == fs + FilesOf(items) && Words(items[1..]) == Words(items);
      }
    }
  }

  lemma PlainRead(items: seq<Item>, rest: seq<Tok>)
    requires EndsArgs(rest) && |Words(items)| < MAXARGS
    ensures Simple(PartToks(Plain(items)) + rest) == Ok((PartMeans(Plain(items)), rest))
  {
    hide Args, Redirs;
    var ts, none: seq<File<string>> := ItemToks(items) + rest, [];
    ItemsRead(items, rest, [], none);
    AroundIsWrap(Exec(Words(items)), FilesOf(items));
    assert [] + Words(items) == Words(items) && none + FilesOf(items) == FilesOf(items);
    assert none + Redirs(ts).value.0 == Redirs(ts).value.0;
    assert !Starts(ts, '(') by { if items == [] { assert ts == rest; } }
  }

  lemma GroupToks(t: Text, files: seq<File<string>>, rest: seq<Tok>)
    ensures PartToks(Group(t, files)) + rest == [Op('(')] + (TextToks(t) + ([Op(')')] + (FileToks(files) + rest)))
  {
    hide TextToks, FileToks;
  }

  lemma {:induction false} PartRead(p: Part, rest: seq<Tok>)
    requires EndsArgs(rest) && PartFits(p)
    ensures Simple(PartToks(p) + rest) == Ok((PartMeans(p), rest))
    decreases p, 0
  {
    match p {
      case Plain(items) => PlainRead(items, rest);
      case Group(t, files) =>
        var behind := FileToks(files) + rest;
        var ts, inner := PartToks(p) + rest, TextToks(t) + ([Op(')')] + behind);
        TextRead(t, [Op(')')] + behind);
        RedirsRead(files, rest);
        AroundIsWrap(Means(t), files);
        GroupToks(t, files, rest);
        hide Sequence, Redirs, TextToks, PartToks, FileToks;
        assert ts == [Op('(')] + inner && ts[1..] == inner;
        assert ([Op(')')] + behind)[1..] == behind;
    }
  }

  lemma {:induction false} PipesRead(q: Pipes, rest: seq<Tok>)
    requires EndsArgs(rest) && !Starts(rest, '|') && PipesFit(q)
    ensures Pipeline(PipesToks(q) + rest) == Ok((PipesMean(q), rest))
    decreases q, 1
  {
    hide Simple, Pipeline;
    match q {
      case Last(p) =>
        PartRead(p, rest);
        PipelineEnds(PartToks(p) + rest, PartMeans(p), rest);
      case More(p, more) =>
        var behind := [Op('|')] + (PipesToks(more) + rest);
        PipesRead(more, rest);
        PartRead(p, behind);
        assert PipesToks(q) + rest == PartToks(p) + behind && behind[1..] == PipesToks(more) + rest;
        PipelineGoesOn(PartToks(p) + behind, PartMeans(p), behind, PipesMean(more), rest);
    }
  }

  lemma {:induction false} AmpsRead(c: Cmd<string>, k: nat, j: nat, rest: seq<Tok>)
    requires !Starts(rest, '&')
    ensures Backs(Amps(c, j), AmpToks(k) + rest) == (Amps(c, j + k), rest)
    decreases k
  {
    var ts := AmpToks(k) + rest;
    if k == 0 {
      assert ts == rest;
    } else {
      assert ts[0] == Op('&') && ts[1..] == AmpToks(k - 1) + rest;
      AmpsRead(c, k - 1, j + 1, rest);
    }
  }

  lemma AmpsEnd(k: nat, rest: seq<Tok>)
    requires Closes(rest) || Starts(rest, ';')
    ensures EndsArgs(AmpToks(k) + rest) && !Starts(AmpToks(k) + rest, '|')
  {
    if k == 0 { assert AmpToks(k) + rest == rest; }
  }

  lemma SemiToks(q: Pipes, k: nat, next: Text, rest: seq<Tok>)
    ensures TextToks(Semi(q, k, next)) + rest == PipesToks(q) + (AmpToks(k) + ([Op(';')] + (TextToks(next) + rest)))
  {
    hide PipesToks, AmpToks;
  }

  lemma {:induction false} TextRead(t: Text, rest: seq<Tok>)
    requires Closes(rest) && Fits(t)
    ensures Sequence(TextToks(t) + rest) == Ok((Means(t), rest))
    decreases t, 2
  {
    hide Pipeline;
    match t {
      case Single(q, k) =>
        AmpsEnd(k, rest);
        PipesRead(q, AmpToks(k) + rest);
        AmpsRead(PipesMean(q), k, 0, rest);
        assert TextToks(t) + rest == PipesToks(q) + (AmpToks(k) + rest);
      case Semi(q, k, next) =>
        var behind := [Op(';')] + (TextToks(next) + rest);
        TextRead(next, rest);
        AmpsEnd(k, behind);
        PipesRead(q, AmpToks(k) + behind);
        AmpsRead(PipesMean(q), k, 0, behind);
        SemiToks(q, k, next, rest);
        assert behind[1..] == TextToks(next) + rest;
    }
  }

  // ---- and nothing else ----

  lemma {:induction false} RedirsAre(ts: seq<Tok>)
    requires Redirs(ts).Ok?
    ensures ts == FileToks(Redirs(ts).value.0) + Redirs(ts).value.1
    decreases |ts|
  {
    if RedirMode(ts).Ok? {
      RedirsAre(ts[2..]);
      var fs, rest := Redirs(ts[2..]).value.0, Redirs(ts[2..]).value.1;
      var f := File(ts[1].w, RedirMode(ts).value);
      assert ([f] + fs)[1..] == fs && ts == [ts[0], ts[1]] + ts[2..] && ModeTok(f.mode) == ts[0];
    }
  }

  function Intos(files: seq<File<string>>): (items: seq<Item>) {
    if files == [] then [] else [Into(files[0])] + Intos(files[1..])
  }

  lemma Joined<T>(a: seq<T>, b: seq<T>, c: seq<T>)
    ensures a + b + c == a + (b + c)
  {
  }

  lemma IntoFirst(f: File<string>, items: seq<Item>)
    ensures ItemToks([Into(f)] + items) == [ModeTok(f.mode), Word(f.name)] + ItemToks(items)
    ensures Words([Into(f)] + items) == Words(items) && FilesOf([Into(f)] + items) == [f] + FilesOf(items)
  {
    assert ([Into(f)] + items)[1..] == items;
  }

  lemma {:induction false} IntosAre(files: seq<File<string>>, items: seq<Item>)
    ensures ItemToks(Intos(files) + items) == FileToks(files) + ItemToks(items)
    ensures Words(Intos(files) + items) == Words(items) && FilesOf(Intos(files) + items) == files + FilesOf(items)
    decreases |files|
  {
    if files == [] {
      assert Intos(files) + items == items && files + FilesOf(items) == FilesOf(items);
      assert FileToks(files) + ItemToks(items) == ItemToks(items);
    } else {
      var f, tail := files[0], Intos(files[1..]) + items;
      IntosAre(files[1..], items);
      IntoFirst(f, tail);
      assert Intos(files) + items == [Into(f)] + tail;
      hide ItemToks, Words, FilesOf, Intos;
      Joined([f], files[1..], FilesOf(items));
      Joined([ModeTok(f.mode), Word(f.name)], FileToks(files[1..]), ItemToks(items));
      assert files == [f] + files[1..];
    }
  }

  lemma ArgsStep(ts: seq<Tok>, argv: seq<string>, fs: seq<File<string>>)
    requires Args(ts, argv, fs).Ok?
    ensures EndsArgs(ts) ==> Args(ts, argv, fs) == Ok((Wrap(Exec(argv), fs), ts))
    ensures !EndsArgs(ts) ==>
              && ts != [] && ts[0].Word? && |argv| + 1 < MAXARGS && Redirs(ts[1..]).Ok?
              && Args(ts, argv, fs) == Args(Redirs(ts[1..]).value.1, argv + [ts[0].w], fs + Redirs(ts[1..]).value.0)
  {
  }

  lemma {:induction false} ArgsAre(ts: seq<Tok>, argv: seq<string>, fs: seq<File<string>>) returns (items: seq<Item>)
    requires Args(ts, argv, fs).Ok? && |argv| < MAXARGS
    ensures ts == ItemToks(items) + Args(ts, argv, fs).value.1 && |argv| + |Words(items)| < MAXARGS
    ensures Args(ts, argv, fs).value.0 == Wrap(Exec(argv + Words(items)), fs + FilesOf(items))
    decreases |ts|
  {
    hide Args, Redirs, Wrap, EndsArgs;
    items := [];
    ArgsStep(ts, argv, fs);
    if EndsArgs(ts) {
      assert argv + [] == argv && fs + [] == fs;
    } else {
      var w, more, rest := ts[0].w, Redirs(ts[1..]).value.0, Redirs(ts[1..]).value.1;
      RedirsAre(ts[1..]);
      var tail := ArgsAre(rest, argv + [w], fs + more);
      IntosAre(more, tail);
      items := [Arg(w)] + (Intos(more) + tail);
      ArgFirst(w, Intos(more) + tail);
      hide ItemToks, Words, FilesOf, Intos, FileToks;
      Joined(argv, [w], Words(tail));
      Joined(fs, more, FilesOf(tail));
      var end := Args(ts, argv, fs).value.1;
      Joined(FileToks(more), ItemToks(tail), end);
      Joined([Word(w)], FileToks(more) + ItemToks(tail), end);
      assert ts == [ts[0]] + ts[1..];
    }
  }

  lemma ArgFirst(w: string, items: seq<Item>)
    ensures ItemToks([Arg(w)] + items) == [Word(w)] + ItemToks(items)
    ensures Words([Arg(w)] + items) == [w] + Words(items) && FilesOf([Arg(w)] + items) == FilesOf(items)
  {
    assert ([Arg(w)] + items)[1..] == items;
  }

  lemma SimpleStep(ts: seq<Tok>)
    requires Simple(ts).Ok?
    ensures Starts(ts, '(') ==> Simple(ts) == Block(ts)
    ensures !Starts(ts, '(') ==>
              && Redirs(ts).Ok? && Args(Redirs(ts).value.1, [], Redirs(ts).value.0) == Simple(ts)
  {
    hide Block, Redirs, Args;
  }

  lemma {:induction false} SimpleIs(ts: seq<Tok>) returns (p: Part)
    requires Simple(ts).Ok?
    ensures ts == PartToks(p) + Simple(ts).value.1 && Simple(ts).value.0 == PartMeans(p) && PartFits(p)
    decreases |ts|, 1
  {
    SimpleStep(ts);
    hide Simple, Block, Redirs, Args, Wrap;
    if Starts(ts, '(') {
      p := BlockIs(ts);
    } else {
      var fs, rest := Redirs(ts).value.0, Redirs(ts).value.1;
      RedirsAre(ts);
      var items := ArgsAre(rest, [], fs);
      IntosAre(fs, items);
      p := Plain(Intos(fs) + items);
      AroundIsWrap(Exec(Words(items)), fs + FilesOf(items));
      hide ItemToks, Words, FilesOf, Intos, FileToks, Around;
      assert [] + Words(items) == Words(items);
      Joined(FileToks(fs), ItemToks(items), Simple(ts).value.1);
    }
  }

  lemma BlockStep(ts: seq<Tok>)
    requires Starts(ts, '(') && Block(ts).Ok?
    ensures Sequence(ts[1..]).Ok? && Starts(Sequence(ts[1..]).value.1, ')')
    ensures var (c, rest) := Sequence(ts[1..]).value;
            Redirs(rest[1..]).Ok? && Block(ts) == Ok((Wrap(c, Redirs(rest[1..]).value.0), Redirs(rest[1..]).value.1))
  {
    hide Sequence, Redirs;
  }

  lemma {:induction false} BlockIs(ts: seq<Tok>) returns (p: Part)
    requires Starts(ts, '(') && Block(ts).Ok?
    ensures ts == PartToks(p) + Block(ts).value.1 && Block(ts).value.0 == PartMeans(p) && PartFits(p)
    decreases |ts|, 0
  {
    BlockStep(ts);
    hide Block, Sequence, Redirs, Wrap;
    var t := SequenceIs(ts[1..]);
    var rest := Sequence(ts[1..]).value.1;
    var fs := Redirs(rest[1..]).value.0;
    RedirsAre(rest[1..]);
    AroundIsWrap(Means(t), fs);
    p := Group(t, fs);
    GroupToks(t, fs, Redirs(rest[1..]).value.1);
    hide TextToks, FileToks, PartToks;
    assert ts == [Op('(')] + ts[1..] && rest == [Op(')')] + rest[1..];
  }

  lemma {:induction false} PipelineIs(ts: seq<Tok>) returns (q: Pipes)
    requires Pipeline(ts).Ok?
    ensures ts == PipesToks(q) + Pipeline(ts).value.1 && Pipeline(ts).value.0 == PipesMean(q) && PipesFit(q)
    decreases |ts|, 2
  {
    var p := SimpleIs(ts);
    var rest := Simple(ts).value.1;
    if Starts(rest, '|') {
      var more := PipelineIs(rest[1..]);
      q := More(p, more);
      assert rest == [Op('|')] + rest[1..];
    } else {
      q := Last(p);
    }
  }

  lemma {:induction false} BacksAre(c: Cmd<string>, j: nat, ts: seq<Tok>) returns (k: nat)
    ensures var (d, rest) := Backs(Amps(c, j), ts); ts == AmpToks(k) + rest && d == Amps(c, j + k)
    decreases |ts|
  {
    k := 0;
    if Starts(ts, '&') {
      k := BacksAre(c, j + 1, ts[1..]);
      k := k + 1;
      assert ts == [Op('&')] + ts[1..];
    }
  }

  lemma SequenceStep(ts: seq<Tok>)
    requires Sequence(ts).Ok?
    ensures Pipeline(ts).Ok?
    ensures var (c, rest) := Pipeline(ts).value;
            var (d, rest2) := Backs(c, rest);
            && |rest2| <= |ts|
            && (!Starts(rest2, ';') ==> Sequence(ts) == Ok((d, rest2)))
            && (Starts(rest2, ';') ==>
                  && Sequence(rest2[1..]).Ok?
                  && Sequence(ts) == Ok((List(d, Sequence(rest2[1..]).value.0), Sequence(rest2[1..]).value.1)))
  {
    hide Pipeline, Backs;
  }

  lemma {:induction false} SequenceIs(ts: seq<Tok>) returns (t: Text)
    requires Sequence(ts).Ok?
    ensures ts == TextToks(t) + Sequence(ts).value.1 && Sequence(ts).value.0 == Means(t) && Fits(t)
    decreases |ts|, 3
  {
    SequenceStep(ts);
    hide Sequence, Pipeline, Backs;
    var q := PipelineIs(ts);
    var c, rest := Pipeline(ts).value.0, Pipeline(ts).value.1;
    var k := BacksAre(c, 0, rest);
    var rest2 := Backs(c, rest).1;
    if Starts(rest2, ';') {
      var next := SequenceIs(rest2[1..]);
      t := Semi(q, k, next);
      SemiToks(q, k, next, Sequence(ts).value.1);
      hide TextToks, PipesToks, AmpToks, Means, PipesMean, Amps, Fits, PipesFit;
      assert rest2 == [Op(';')] + rest2[1..];
    } else {
      t := Single(q, k);
      Joined(PipesToks(q), AmpToks(k), rest2);
    }
  }

  /** The parser accepts exactly the spellings of texts, and gives each the text's meaning. */
  lemma ParseIff(ts: seq<Tok>, c: Cmd<string>)
    ensures Parse(ts) == Ok(c) <==> exists t :: Fits(t) && TextToks(t) == ts && Means(t) == c
  {
    if Parse(ts) == Ok(c) {
      var t := SequenceIs(ts);
      assert TextToks(t) == ts;
    }
    if t :| Fits(t) && TextToks(t) == ts && Means(t) == c {
      TextRead(t, []);
      assert TextToks(t) + [] == ts;
    }
  }

  // ---- characters: tokens with any white space between them ----

  predicate AllWhite(s: string) { forall i | 0 <= i < |s| :: White(s[i]) }

  function Letters(t: Tok): (s: string) {
    match t case Op(c) => [c] case Append => ">>" case Word(w) => w
  }

  /** These two tokens run together unless there is white space between them. */
  predicate Sticks(t: Tok, u: Tok) {
    (t.Word? && u.Word?) || (t == Op('>') && (u == Op('>') || u == Append))
  }

  /** White space before, between and behind the tokens, enough to tell them apart. */
  ghost predicate Gaps(ts: seq<Tok>, gaps: seq<string>) {
    && |gaps| == |ts| + 1 && (forall i | 0 <= i < |gaps| :: AllWhite(gaps[i]))
    && forall i, j | 0 <= i < j < |ts| && j == i + 1 && Sticks(ts[i], ts[j]) :: gaps[j] != ""
  }

  function Spelled(ts: seq<Tok>, gaps: seq<string>): (s: string)
    requires |gaps| == |ts| + 1
  {
    if ts == [] then gaps[0] else gaps[0] + (Letters(ts[0]) + Spelled(ts[1..], gaps[1..]))
  }

  lemma {:induction false} GapRead(gap: string, s: string)
    requires AllWhite(gap)
    ensures Tokens(gap + s) == Tokens(s)
  {
    if gap == "" {
      assert gap + s == s;
    } else {
      assert (gap + s)[0] == gap[0] && (gap + s)[1..] == gap[1..] + s;
      GapRead(gap[1..], s);
    }
  }

  lemma {:induction false} WordStops(w: string, s: string)
    requires (forall i | 0 <= i < |w| :: InWord(w[i])) && (s != "" ==> !InWord(s[0]))
    ensures WordEnd(w + s) == |w|
  {
    if w == "" {
      assert w + s == s;
    } else {
      assert (w + s)[0] == w[0] && (w + s)[1..] == w[1..] + s;
      WordStops(w[1..], s);
    }
  }

  /** One token, given that what follows does not stick to it. */
  lemma TokenRead(t: Tok, s: string)
    requires GoodTok(t) && (t.Word? && s != "" ==> !InWord(s[0])) && (t == Op('>') && s != "" ==> s[0] != '>')
    ensures Tokens(Letters(t) + s) == [t] + Tokens(s)
  {
    var x := Letters(t) + s;
    match t {
      case Op(c) => assert x[0] == c && x[1..] == s;
      case Append => assert x[0] == '>' && x[1] == '>' && x[2..] == s;
      case Word(w) =>
        WordStops(w, s);
        assert x[0] == w[0] && InWord(w[0]) && x[..|w|] == w && x[|w|..] == s;
    }
  }

  /** How what follows a token begins. */
  lemma Follows(t: Tok, ts: seq<Tok>, gaps: seq<string>)
    requires GoodTok(t) && AllGood(ts) && |gaps| == |ts| + 1 && AllWhite(gaps[0])
    requires ts != [] && Sticks(t, ts[0]) ==> gaps[0] != ""
    ensures var s := Spelled(ts, gaps);
            (t.Word? && s != "" ==> !InWord(s[0])) && (t == Op('>') && s != "" ==> s[0] != '>')
  {
    var s := Spelled(ts, gaps);
    if gaps[0] != "" {
      assert s[0] == gaps[0][0];
    } else if ts != [] {
      var u := ts[0];
      assert GoodTok(u);
      assert s == Letters(u) + Spelled(ts[1..], gaps[1..]);
      assert s[0] == Letters(u)[0];
    }
  }

  /** Whatever white space there is, the tokens are read. */
  lemma {:induction false} SpelledRead(ts: seq<Tok>, gaps: seq<string>)
    requires AllGood(ts) && Gaps(ts, gaps)
    ensures Tokens(Spelled(ts, gaps)) == ts
    decreases |ts|
  {
    if ts == [] {
      GapRead(gaps[0], "");
      assert gaps[0] + "" == gaps[0];
    } else {
      var more := Spelled(ts[1..], gaps[1..]);
      assert Gaps(ts[1..], gaps[1..]) by {
        forall i, j | 0 <= i < j < |ts| - 1 && j == i + 1 && Sticks(ts[1..][i], ts[1..][j]) ensures gaps[1..][j] != "" {
          assert Sticks(ts[i + 1], ts[j + 1]);
        }
      }
      SpelledRead(ts[1..], gaps[1..]);
      assert GoodTok(ts[0]);
      if |ts| > 1 && Sticks(ts[0], ts[1]) { assert gaps[1] != ""; }
      Follows(ts[0], ts[1..], gaps[1..]);
      TokenRead(ts[0], more);
      GapRead(gaps[0], Letters(ts[0]) + more);
      assert ts == [ts[0]] + ts[1..];
    }
  }

  /** And every line is read as tokens with white space between them. */
  lemma {:induction false} LineIsSpelled(s: string) returns (gaps: seq<string>)
    requires Line(s)
    ensures AllGood(Tokens(s)) && Gaps(Tokens(s), gaps) && Spelled(Tokens(s), gaps) == s
    decreases |s|
  {
    if s == "" {
      gaps := [""];
    } else if White(s[0]) {
      var more := LineIsSpelled(s[1..]);
      gaps := [[s[0]] + more[0]] + more[1..];
      MoreWhite(Tokens(s), more, s[0]);
      assert s == [s[0]] + s[1..];
    } else {
      TokenFirst(s);
      var t := Tokens(s)[0];
      var n := |Letters(t)|;
      assert s == Letters(t) + s[n..];
      var more := LineIsSpelled(s[n..]);
      gaps := [""] + more;
      OneMore(t, s[n..], more);
    }
  }

  lemma TokenFirst(s: string)
    requires s != "" && Line(s) && !White(s[0])
    ensures Tokens(s) != []
    ensures var t := Tokens(s)[0];
            var n := |Letters(t)|;
            && GoodTok(t) && 0 < n <= |s| && s[..n] == Letters(t) && Tokens(s) == [t] + Tokens(s[n..])
            && (t.Word? && n < |s| ==> !InWord(s[n])) && (t == Op('>') && n < |s| ==> s[n] != '>')
  {
    FirstTok(s);
    var n := WordEnd(s);
    if !Symbol(s[0]) {
      assert s[0] != '\0' && InWord(s[0]) && n > 0 && IsWord(s[..n]);
    }
  }

  lemma MoreWhite(ts: seq<Tok>, gaps: seq<string>, c: char)
    requires Gaps(ts, gaps) && White(c)
    ensures var more := [[c] + gaps[0]] + gaps[1..];
            Gaps(ts, more) && Spelled(ts, more) == [c] + Spelled(ts, gaps)
  {
    var more := [[c] + gaps[0]] + gaps[1..];
    assert more[1..] == gaps[1..];
    forall i | 0 <= i < |more| ensures AllWhite(more[i]) { assert AllWhite(gaps[i]); }
  }

  lemma OneMore(t: Tok, s: string, gaps: seq<string>)
    requires GoodTok(t) && AllGood(Tokens(s)) && Gaps(Tokens(s), gaps) && Spelled(Tokens(s), gaps) == s
    requires (t.Word? && s != "" ==> !InWord(s[0])) && (t == Op('>') && s != "" ==> s[0] != '>')
    ensures var ts, more := [t] + Tokens(s), [""] + gaps;
            AllGood(ts) && Gaps(ts, more) && Spelled(ts, more) == Letters(t) + s
  {
    hide Tokens;
    var rest := Tokens(s);
    var ts, more := [t] + rest, [""] + gaps;
    assert ts[1..] == rest && more[1..] == gaps && "" + (Letters(t) + s) == Letters(t) + s;
    forall i, j | 0 <= i < j < |ts| && j == i + 1 && Sticks(ts[i], ts[j]) ensures more[j] != "" {
      if i == 0 {
        if gaps[0] == "" { NoGap(t, rest, gaps); }
      } else {
        assert Sticks(rest[i - 1], rest[j - 1]);
      }
    }
  }

  /** Without white space between them the next token begins what follows. */
  lemma NoGap(t: Tok, rest: seq<Tok>, gaps: seq<string>)
    requires AllGood(rest) && Gaps(rest, gaps) && gaps[0] == "" && rest != [] && Sticks(t, rest[0])
    ensures var s := Spelled(rest, gaps);
            s != "" && (t.Word? ==> InWord(s[0])) && (t == Op('>') ==> s[0] == '>')
  {
    var u := rest[0];
    assert GoodTok(u);
    assert Spelled(rest, gaps) == Letters(u) + Spelled(rest[1..], gaps[1..]);
  }

  /** s is the text, with white space in the gaps. */
  ghost predicate Spells(s: string, t: Text, gaps: seq<string>) {
    AllGood(TextToks(t)) && Gaps(TextToks(t), gaps) && Spelled(TextToks(t), gaps) == s
  }

  lemma SpellsRead(s: string, t: Text, gaps: seq<string>)
    requires Spells(s, t, gaps)
    ensures Tokens(s) == TextToks(t)
  {
    SpelledRead(TextToks(t), gaps);
  }

  /** The lines the parser accepts, and what it makes of them: texts, in any spelling. */
  lemma LineIff(s: string, c: Cmd<string>)
    requires Line(s)
    ensures Parse(Tokens(s)) == Ok(c) <==> exists t, gaps :: Fits(t) && Means(t) == c && Spells(s, t, gaps)
  {
    hide Tokens, Parse, TextToks, Means, Fits;
    ParseIff(Tokens(s), c);
    if Parse(Tokens(s)) == Ok(c) {
      var gaps := LineIsSpelled(s);
      var t :| Fits(t) && TextToks(t) == Tokens(s) && Means(t) == c;
      assert Spells(s, t, gaps);
    }
    if t, gaps :| Fits(t) && Means(t) == c && Spells(s, t, gaps) {
      SpellsRead(s, t, gaps);
    }
  }

  // ---- every tree has a text, with parentheses only where it needs them ----

  function Size<T>(c: Cmd<T>): (n: nat) {
    match c
    case Exec(_) => 1
    case Redir(d, _, _) => Size(d) + 1
    case Pipe(l, r) => Size(l) + Size(r) + 1
    case List(l, r) => Size(l) + Size(r) + 1
    case Back(d) => Size(d) + 1
  }

  /** The command without its ampersands, and their number. */
  function Core(c: Cmd<string>): (d: Cmd<string>)
    ensures !d.Back? && Size(d) <= Size(c) && (c.Back? ==> Size(d) < Size(c)) && (!c.Back? ==> d == c)
    ensures WellFormed(c) ==> WellFormed(d)
  {
    if c.Back? then Core(c.cmd) else c
  }

  function AmpsOf(c: Cmd<string>): (k: nat) { if c.Back? then AmpsOf(c.cmd) + 1 else 0 }

  /** The command without its redirections, and those, the innermost first. */
  function Inner(c: Cmd<string>): (d: Cmd<string>)
    ensures !d.Redir? && Size(d) <= Size(c) && (c.Redir? ==> Size(d) < Size(c)) && (!c.Redir? ==> d == c)
    ensures WellFormed(c) ==> WellFormed(d)
  {
    if c.Redir? then Inner(c.cmd) else c
  }

  function FilesIn(c: Cmd<string>): (fs: seq<File<string>>)
    ensures WellFormed(c) ==> forall i | 0 <= i < |fs| :: IsWord(fs[i].name)
  {
    if c.Redir? then FilesIn(c.cmd) + [File(c.file, c.mode)] else []
  }

  function ArgItems(argv: seq<string>): (items: seq<Item>) {
    if argv == [] then [] else [Arg(argv[0])] + ArgItems(argv[1..])
  }

  /** Arguments and redirections bare; anything else in parentheses, with its redirections behind it. */
  function BarePart(c: Cmd<string>): (p: Part)
    decreases Size(c), if c.Exec? || c.Redir? then 0 else 5
  {
    if Inner(c).Exec? then Plain(ArgItems(Inner(c).argv) + Intos(FilesIn(c)))
    else Group(Bare(Inner(c)), FilesIn(c))
  }

  /** a | b | c for pipes that nest to the right. */
  function BarePipes(c: Cmd<string>): (q: Pipes)
    decreases Size(c), if c.Exec? || c.Redir? then 1 else if c.Pipe? then 3 else 6
  {
    if c.Pipe? then More(BarePart(c.left), BarePipes(c.right)) else Last(BarePart(c))
  }

  /** a & ; b for lists that nest to the right. */
  function Bare(c: Cmd<string>): (t: Text)
    decreases Size(c), if c.Exec? || c.Redir? then 2 else 4
  {
    if c.List? then Semi(BarePipes(Core(c.left)), AmpsOf(c.left), Bare(c.right))
    else Single(BarePipes(Core(c)), AmpsOf(c))
  }

  lemma {:induction false} AmpsBack(c: Cmd<string>)
    ensures Amps(Core(c), AmpsOf(c)) == c
  {
    if c.Back? { AmpsBack(c.cmd); }
  }

  lemma {:induction false} FilesBack(c: Cmd<string>)
    ensures Wrap(Inner(c), FilesIn(c)) == c
  {
    if c.Redir? {
      FilesBack(c.cmd);
      var fs := FilesIn(c);
      assert fs[..|fs| - 1] == FilesIn(c.cmd);
    }
  }

  lemma {:induction false} ArgItemsAre(argv: seq<string>, files: seq<File<string>>)
    ensures var items := ArgItems(argv) + Intos(files);
            Words(items) == argv && FilesOf(items) == files && ItemToks(items) == WordToks(argv) + FileToks(files)
    decreases |argv|
  {
    var items := ArgItems(argv) + Intos(files);
    if argv == [] {
      IntosAre(files, []);
      assert items == Intos(files) + [] && files + [] == files && FileToks(files) + [] == FileToks(files);
    } else {
      var tail := ArgItems(argv[1..]) + Intos(files);
      ArgItemsAre(argv[1..], files);
      ArgFirst(argv[0], tail);
      assert items == [Arg(argv[0])] + tail;
      hide ItemToks, Words, FilesOf, Intos, FileToks, ArgItems;
      Joined([Word(argv[0])], WordToks(argv[1..]), FileToks(files));
      assert argv == [argv[0]] + argv[1..];
    }
  }

  lemma {:induction false} PartBack(c: Cmd<string>)
    requires WellFormed(c)
    ensures PartMeans(BarePart(c)) == c && PartFits(BarePart(c))
    decreases Size(c), if c.Exec? || c.Redir? then 0 else 5
  {
    FilesBack(c);
    AroundIsWrap(Inner(c), FilesIn(c));
    if Inner(c).Exec? { ArgItemsAre(Inner(c).argv, FilesIn(c)); } else { BareBack(Inner(c)); }
  }

  lemma {:induction false} PipesBack(c: Cmd<string>)
    requires WellFormed(c)
    ensures PipesMean(BarePipes(c)) == c && PipesFit(BarePipes(c))
    decreases Size(c), if c.Exec? || c.Redir? then 1 else if c.Pipe? then 3 else 6
  {
    if c.Pipe? {
      PartBack(c.left);
      PipesBack(c.right);
    } else {
      PartBack(c);
    }
  }

  /** The text of a tree means the tree. */
  lemma {:induction false} BareBack(c: Cmd<string>)
    requires WellFormed(c)
    ensures Means(Bare(c)) == c && Fits(Bare(c))
    decreases Size(c), if c.Exec? || c.Redir? then 2 else 4
  {
    if c.List? {
      AmpsBack(c.left);
      PipesBack(Core(c.left));
      BareBack(c.right);
    } else {
      AmpsBack(c);
      PipesBack(Core(c));
    }
  }

  lemma {:induction false} FilesGood(files: seq<File<string>>)
    requires forall i | 0 <= i < |files| :: IsWord(files[i].name)
    ensures AllGood(FileToks(files))
  {
    if files != [] {
      FilesGood(files[1..]);
      GoodPlus([ModeTok(files[0].mode), Word(files[0].name)], FileToks(files[1..]));
    }
  }

  lemma {:induction false} AmpsGood(k: nat)
    ensures AllGood(AmpToks(k))
  {
    if k > 0 {
      AmpsGood(k - 1);
      GoodPlus([Op('&')], AmpToks(k - 1));
    }
  }

  lemma {:induction false} PartGood(c: Cmd<string>)
    requires WellFormed(c)
    ensures AllGood(PartToks(BarePart(c)))
    decreases Size(c), if c.Exec? || c.Redir? then 0 else 5
  {
    hide IsWord;
    var fs := FilesIn(c);
    FilesGood(fs);
    if Inner(c).Exec? {
      ArgItemsAre(Inner(c).argv, fs);
      WordsGood(Inner(c).argv);
      GoodPlus(WordToks(Inner(c).argv), FileToks(fs));
    } else {
      BareGood(Inner(c));
      GoodPlus([Op(')')], FileToks(fs));
      GoodPlus(TextToks(Bare(Inner(c))), [Op(')')] + FileToks(fs));
      GoodPlus([Op('(')], TextToks(Bare(Inner(c))) + ([Op(')')] + FileToks(fs)));
    }
  }

  lemma {:induction false} PipesGood(c: Cmd<string>)
    requires WellFormed(c)
    ensures AllGood(PipesToks(BarePipes(c)))
    decreases Size(c), if c.Exec? || c.Redir? then 1 else if c.Pipe? then 3 else 6
  {
    hide IsWord;
    if c.Pipe? {
      PartGood(c.left);
      PipesGood(c.right);
      GoodPlus([Op('|')], PipesToks(BarePipes(c.right)));
      GoodPlus(PartToks(BarePart(c.left)), [Op('|')] + PipesToks(BarePipes(c.right)));
    } else {
      PartGood(c);
    }
  }

  lemma {:induction false} BareGood(c: Cmd<string>)
    requires WellFormed(c)
    ensures AllGood(TextToks(Bare(c)))
    decreases Size(c), if c.Exec? || c.Redir? then 2 else 4
  {
    hide IsWord;
    var first := if c.List? then c.left else c;
    var q, k := BarePipes(Core(first)), AmpsOf(first);
    PipesGood(Core(first));
    AmpsGood(k);
    if c.List? {
      BareGood(c.right);
      GoodPlus([Op(';')], TextToks(Bare(c.right)));
      GoodPlus(AmpToks(k), [Op(';')] + TextToks(Bare(c.right)));
      GoodPlus(PipesToks(q), AmpToks(k) + ([Op(';')] + TextToks(Bare(c.right))));
    } else {
      GoodPlus(PipesToks(q), AmpToks(k));
    }
  }

  /** Every tree the parser can build is what it makes of the tree's text. */
  lemma BareParses(c: Cmd<string>)
    requires WellFormed(c)
    ensures Parse(Tokens(Show(TextToks(Bare(c))))) == Ok(c)
  {
    BareBack(c);
    BareGood(c);
    TokensShow(TextToks(Bare(c)));
    TextRead(Bare(c), []);
    assert TextToks(Bare(c)) + [] == TextToks(Bare(c));
  }

  // ---- some lines ----

  lemma OneWord(w: string)
    ensures var p := Plain([Arg(w)]); PartToks(p) == [Word(w)] && PartMeans(p) == Exec([w]) && PartFits(p)
  {
    assert [Arg(w)] == [Arg(w)] + [];
    ArgFirst(w, []);
  }

  lemma Ampersands()
    ensures AmpToks(0) == [] && AmpToks(1) == [Op('&')]
    ensures forall c :: Amps(c, 0) == c && Amps(c, 1) == Back(c)
  {
  }

  /** a & ; b */
  lemma BackgroundThenList()
    ensures Parse([Word("a"), Op('&'), Op(';'), Word("b")]) == Ok(List(Back(Exec(["a"])), Exec(["b"])))
  {
    OneWord("a");
    OneWord("b");
    Ampersands();
    var t := Semi(Last(Plain([Arg("a")])), 1, Single(Last(Plain([Arg("b")])), 0));
    hide PartToks, PartMeans, PartFits, AmpToks, Amps, Parse;
    assert TextToks(t) == [Word("a"), Op('&'), Op(';'), Word("b")];
    ParseIff(TextToks(t), Means(t));
  }

  /** A simple command on its own. */
  lemma OnePart(p: Part)
    requires PartFits(p)
    ensures Parse(PartToks(p)) == Ok(PartMeans(p))
  {
    hide PartToks, PartMeans, PartFits, AmpToks, Amps, Parse;
    Ampersands();
    var t := Single(Last(p), 0);
    assert PipesToks(Last(p)) == PartToks(p) && PipesMean(Last(p)) == PartMeans(p) && PipesFit(Last(p));
    assert Fits(t) && TextToks(t) == PartToks(p) && Means(t) == PartMeans(p);
    ParseIff(TextToks(t), Means(t));
  }

  lemma TwoFiles(f: File<string>, g: File<string>, c: Cmd<string>)
    ensures FileToks([f, g]) == [ModeTok(f.mode), Word(f.name), ModeTok(g.mode), Word(g.name)]
    ensures Around(c, [f, g]) == Redir(Redir(c, f.name, f.mode), g.name, g.mode)
  {
    assert [f, g][1..] == [g] && [g][1..] == [];
    assert FileToks([g]) == [ModeTok(g.mode), Word(g.name)];
    assert Around(c, [f, g]) == Around(Redir(c, f.name, f.mode), [g]);
  }

  /** a < x > y */
  lemma RedirectionsStack()
    ensures Parse([Word("a"), Op('<'), Word("x"), Op('>'), Word("y")]) ==
            Ok(Redir(Redir(Exec(["a"]), "x", In), "y", Out))
  {
    var f, g := File("x", In), File("y", Out);
    ArgItemsAre(["a"], [f, g]);
    TwoFiles(f, g, Exec(["a"]));
    var p := Plain(ArgItems(["a"]) + Intos([f, g]));
    assert ["a"][1..] == [] && WordToks(["a"]) == [Word("a")];
    hide ItemToks, Words, FilesOf, FileToks, WordToks, Around;
    assert PartToks(p) == [Word("a"), Op('<'), Word("x"), Op('>'), Word("y")];
    assert PartMeans(p) == Redir(Redir(Exec(["a"]), "x", In), "y", Out) && PartFits(p);
    OnePart(p);
  }

  /** a | b | c */
  lemma PipesNest()
    ensures Parse([Word("a"), Op('|'), Word("b"), Op('|'), Word("c")]) ==
            Ok(Pipe(Exec(["a"]), Pipe(Exec(["b"]), Exec(["c"]))))
  {
    OneWord("a");
    OneWord("b");
    OneWord("c");
    Ampersands();
    var t := Single(More(Plain([Arg("a")]), More(Plain([Arg("b")]), Last(Plain([Arg("c")])))), 0);
    hide PartToks, PartMeans, PartFits, AmpToks, Amps, Parse;
    assert TextToks(t) == [Word("a"), Op('|'), Word("b"), Op('|'), Word("c")];
    ParseIff(TextToks(t), Means(t));
  }
}
