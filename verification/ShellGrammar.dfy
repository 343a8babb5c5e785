/**
 The shell's grammar.  Command lines are written down as concrete syntax, redirections and white
 space wherever they may stand, and the parser of Shell.dfy reads every one of them as the tree it
 means, and nothing else.
 */
module ShellGrammar {
  import opened Kernel
  import opened Shell

  // --- lexemes ------------------------------------------------------------------------------------

  // A word, or an operator; '+' is >>.
  datatype Lexeme = Name(text: string) | Op(kind: char)

  function LexemeOf(buf: string, t: Token): Lexeme {
    if t.kind == 'a' then Name(TextOf(buf, t.span)) else Op(t.kind)
  }

  // The lexemes of the line from s on, as gettoken delivers them.
  function Lex(buf: string, s: nat): seq<Lexeme>
    requires s <= |buf|
    decreases |buf| - s
  {
    var t := GetToken(buf, s);
    if t.kind == NUL then [] else [LexemeOf(buf, t)] + Lex(buf, t.next)
  }

  // The character peek sees in front of a lexeme; words all look alike to it.
  function Lead(x: Lexeme): char {
    match x
    case Name(_) => 'a'
    case Op(k) => if k == '+' then '>' else k
  }

  predicate LeadIn(xs: seq<Lexeme>, toks: set<char>) {
    xs != [] && Lead(xs[0]) in toks
  }

  lemma SkipTwice(buf: string, s: nat)
    requires s <= |buf|
    ensures SkipSpace(buf, SkipSpace(buf, s)) == SkipSpace(buf, s)
  {
  }

  // Leading white space does not matter.
  lemma {:induction false} Skipped(buf: string, s: nat)
    requires s <= |buf|
    ensures Lex(buf, SkipSpace(buf, s)) == Lex(buf, s)
  {
    SkipTwice(buf, s);
    assert GetToken(buf, SkipSpace(buf, s)) == GetToken(buf, s);
  }

  lemma PeekLex(buf: string, s: nat, toks: set<char>)
    requires s <= |buf| && forall c :: c in toks ==> IsSymbol(c)
    ensures var (b, t) := Peek(buf, s, toks); Lex(buf, t) == Lex(buf, s) && (b <==> LeadIn(Lex(buf, s), toks))
  {
    Skipped(buf, s);
  }

  // --- concrete syntax --------------------------------------------------------------------------------

  datatype Redirect = Redirect(op: char, file: string)

  // A word of a command and the redirections after it.
  datatype Arg = Arg(word: string, post: seq<Redirect>)

  datatype Part =
    | Simple(pre: seq<Redirect>, args: seq<Arg>)
    | Group(inner: Line, post: seq<Redirect>)

  datatype Pipeline = Pipeline(first: Part, rest: Option<Pipeline>)

  datatype Line = Line(first: Pipeline, amps: nat, rest: Option<Line>)

  function RedirToks(rs: seq<Redirect>): seq<Lexeme> {
    if rs == [] then [] else [Op(rs[0].op), Name(rs[0].file)] + RedirToks(rs[1..])
  }

  function ArgToks(args: seq<Arg>): seq<Lexeme> {
    if args == [] then [] else [Name(args[0].word)] + RedirToks(args[0].post) + ArgToks(args[1..])
  }

  function Amps(n: nat): seq<Lexeme> {
    if n == 0 then [] else [Op('&')] + Amps(n - 1)
  }

  function PartToks(p: Part): seq<Lexeme> {
    match p
    case Simple(pre, args) => RedirToks(pre) + ArgToks(args)
    case Group(inner, post) => [Op('(')] + LineToks(inner) + [Op(')')] + RedirToks(post)
  }

  function PipeToks(p: Pipeline): seq<Lexeme> {
    PartToks(p.first) + (if p.rest.None? then [] else [Op('|')] + PipeToks(p.rest.value))
  }

  function LineToks(l: Line): seq<Lexeme> {
    PipeToks(l.first) + Amps(l.amps) + (if l.rest.None? then [] else [Op(';')] + LineToks(l.rest.value))
  }

  predicate OpsOk(rs: seq<Redirect>) {
    forall i :: 0 <= i < |rs| ==> rs[i].op == '<' || rs[i].op == '>' || rs[i].op == '+'
  }

  predicate PartOk(p: Part) {
    match p
    case Simple(pre, args) => OpsOk(pre) && |args| < MAXARGS && forall i :: 0 <= i < |args| ==> OpsOk(args[i].post)
    case Group(inner, post) => LineOk(inner) && OpsOk(post)
  }

  predicate PipeOk(p: Pipeline) {
    PartOk(p.first) && (p.rest.Some? ==> PipeOk(p.rest.value))
  }

  predicate LineOk(l: Line) {
    PipeOk(l.first) && (l.rest.Some? ==> LineOk(l.rest.value))
  }

  // --- what it means ----------------------------------------------------------------------------------

  type Effect = (string, Mode)

  function EffectOf(r: Redirect): Effect {
    (r.file, if r.op == '<' then Input else Output)
  }

  function Effects(rs: seq<Redirect>): seq<Effect> {
    if rs == [] then [] else [EffectOf(rs[0])] + Effects(rs[1..])
  }

  function ArgEffects(args: seq<Arg>): seq<Effect> {
    if args == [] then [] else Effects(args[0].post) + ArgEffects(args[1..])
  }

  function Words(args: seq<Arg>): seq<string> {
    if args == [] then [] else [args[0].word] + Words(args[1..])
  }

  // The last redirection is the outermost.
  function Redirected(c: Cmd<string>, es: seq<Effect>): Cmd<string> {
    if es == [] then c
    else var n := |es| - 1; Redir(Redirected(c, es[..n]), es[n].0, es[n].1)
  }

  function Backed(c: Cmd<string>, n: nat): Cmd<string>
    decreases n
  {
    if n == 0 then c else Backed(Back(c), n - 1)
  }

  function PartCmd(p: Part): Cmd<string> {
    match p
    case Simple(pre, args) => Redirected(Exec(Words(args)), Effects(pre) + ArgEffects(args))
    case Group(inner, post) => Redirected(LineCmd(inner), Effects(post))
  }

  function PipeCmd(p: Pipeline): Cmd<string> {
    if p.rest.None? then PartCmd(p.first) else Pipe(PartCmd(p.first), PipeCmd(p.rest.value))
  }

  function LineCmd(l: Line): Cmd<string> {
    var c := Backed(PipeCmd(l.first), l.amps);
    if l.rest.None? then c else List(c, LineCmd(l.rest.value))
  }

  // --- texts of spans -----------------------------------------------------------------------------------

  function Files(buf: string, redirs: seq<Redirection>): (r: seq<Effect>)
    ensures |r| == |redirs| && forall i :: 0 <= i < |r| ==> r[i] == (TextOf(buf, redirs[i].file), redirs[i].mode)
  {
    seq(|redirs|, i requires 0 <= i < |redirs| => (TextOf(buf, redirs[i].file), redirs[i].mode))
  }

  function Texts(buf: string, argv: seq<Span>): (r: seq<string>)
    ensures |r| == |argv| && forall i :: 0 <= i < |r| ==> r[i] == TextOf(buf, argv[i])
  {
    seq(|argv|, i requires 0 <= i < |argv| => TextOf(buf, argv[i]))
  }

  lemma FilesSnoc(buf: string, redirs: seq<Redirection>, r: Redirection)
    ensures Files(buf, redirs + [r]) == Files(buf, redirs) + [(TextOf(buf, r.file), r.mode)]
  {
  }

  lemma TextsSnoc(buf: string, argv: seq<Span>, w: Span)
    ensures Texts(buf, argv + [w]) == Texts(buf, argv) + [TextOf(buf, w)]
  {
  }

  lemma {:induction false} WrapText(buf: string, cmd: Cmd<Span>, redirs: seq<Redirection>)
    ensures Text(buf, Wrap(cmd, redirs)) == Redirected(Text(buf, cmd), Files(buf, redirs))
  {
    if redirs != [] {
      var n := |redirs| - 1;
      WrapText(buf, cmd, redirs[..n]);
      assert Files(buf, redirs)[..n] == Files(buf, redirs[..n]);
    }
  }

  lemma ExecText(buf: string, argv: seq<Span>)
    ensures Text(buf, Exec(argv)) == Exec(Texts(buf, argv))
  {
    assert Text(buf, Exec(argv)).argv == Texts(buf, argv);
  }

  // --- every line is read as what it means -------------------------------------------------------------

  // Taking the first lexeme.
  lemma Taken(buf: string, s: nat, x: Lexeme, xs: seq<Lexeme>)
    requires s <= |buf| && Lex(buf, s) == [x] + xs
    ensures var t := GetToken(buf, s); t.kind != NUL && LexemeOf(buf, t) == x && Lex(buf, t.next) == xs
  {
    var t := GetToken(buf, s);
    assert Lex(buf, s) == [LexemeOf(buf, t)] + Lex(buf, t.next);
    assert Lex(buf, s)[1..] == xs && Lex(buf, s)[1..] == Lex(buf, t.next);
  }

  // peek and gettoken of an operator.
  lemma Passed(buf: string, s: nat, k: char, xs: seq<Lexeme>)
    requires s <= |buf| && IsSymbol(k) && Lex(buf, s) == [Op(k)] + xs
    ensures var (b, t) := Peek(buf, s, {k}); b && t < |buf| && buf[t] == k && Lex(buf, GetToken(buf, t).next) == xs
  {
    PeekLex(buf, s, {k});
    Taken(buf, Peek(buf, s, {k}).1, Op(k), xs);
  }

  lemma Assoc<T>(a: seq<T>, b: seq<T>, c: seq<T>)
    ensures a + b + c == a + (b + c)
  {
  }

  lemma RedirHead(rs: seq<Redirect>, rest: seq<Lexeme>)
    requires rs != []
    ensures RedirToks(rs) + rest == [Op(rs[0].op)] + ([Name(rs[0].file)] + (RedirToks(rs[1..]) + rest))
    ensures Effects(rs) == [EffectOf(rs[0])] + Effects(rs[1..])
  {
  }

  // One turn of the loop of parseredirs.
  lemma RedirTurn(r: Redirect, buf: string, s: nat, redirs: seq<Redirection>, xs: seq<Lexeme>)
    returns (s': nat, r': Redirection)
    requires s <= |buf| && OpsOk([r]) && Lex(buf, s) == [Op(r.op)] + ([Name(r.file)] + xs)
    ensures s' <= |buf| && Lex(buf, s') == xs && ParseRedirs(buf, s, redirs) == ParseRedirs(buf, s', redirs + [r'])
    ensures Files(buf, redirs + [r']) == Files(buf, redirs) + [EffectOf(r)]
  {
    assert [r][0] == r;
    PeekLex(buf, s, {'<', '>'});
    var t := Peek(buf, s, {'<', '>'}).1;
    Taken(buf, t, Op(r.op), [Name(r.file)] + xs);
    var tok := GetToken(buf, t);
    Taken(buf, tok.next, Name(r.file), xs);
    var file := GetToken(buf, tok.next);
    s', r' := file.next, Redirection(file.span, if tok.kind == '<' then Input else Output);
    FilesSnoc(buf, redirs, r');
  }

  lemma RedirsDone(buf: string, s: nat, redirs: seq<Redirection>)
    requires s <= |buf| && !LeadIn(Lex(buf, s), {'<', '>'})
    ensures var r := ParseRedirs(buf, s, redirs); r == Ok(redirs, r.next) && Lex(buf, r.next) == Lex(buf, s)
  {
    PeekLex(buf, s, {'<', '>'});
  }

  lemma {:induction false} RedirsParsed(rs: seq<Redirect>, buf: string, s: nat, redirs: seq<Redirection>, rest: seq<Lexeme>)
    requires s <= |buf| && OpsOk(rs) && Lex(buf, s) == RedirToks(rs) + rest && !LeadIn(rest, {'<', '>'})
    ensures var r := ParseRedirs(buf, s, redirs);
            r.Ok? && Lex(buf, r.next) == rest && Files(buf, r.value) == Files(buf, redirs) + Effects(rs)
    decreases |rs|
  {
    if rs == [] {
      assert RedirToks(rs) + rest == rest && Files(buf, redirs) + Effects(rs) == Files(buf, redirs);
      RedirsDone(buf, s, redirs);
    } else {
      RedirHead(rs, rest);
      var s', r' := RedirTurn(rs[0], buf, s, redirs, RedirToks(rs[1..]) + rest);
      RedirsParsed(rs[1..], buf, s', redirs + [r'], rest);
      Assoc(Files(buf, redirs), [EffectOf(rs[0])], Effects(rs[1..]));
    }
  }

  lemma ArgHead(args: seq<Arg>, rest: seq<Lexeme>)
    requires args != []
    ensures ArgToks(args) + rest == [Name(args[0].word)] + (RedirToks(args[0].post) + (ArgToks(args[1..]) + rest))
    ensures Words(args) == [args[0].word] + Words(args[1..])
    ensures ArgEffects(args) == Effects(args[0].post) + ArgEffects(args[1..])
  {
  }

  // What ends a command, a pipeline and a line.
  predicate EndsPart(rest: seq<Lexeme>) {
    rest == [] || LeadIn(rest, {'|', ')', '&', ';'})
  }

  predicate EndsPipe(rest: seq<Lexeme>) {
    rest == [] || LeadIn(rest, {')', '&', ';'})
  }

  predicate EndsLine(rest: seq<Lexeme>) {
    rest == [] || LeadIn(rest, {')'})
  }

  // One turn of the loop of parseexec.
  lemma ArgTurn(a: Arg, buf: string, s: nat, argv: seq<Span>, redirs: seq<Redirection>, xs: seq<Lexeme>)
    returns (s': nat, w: Span, redirs': seq<Redirection>)
    requires s <= |buf| && OpsOk(a.post) && |argv| + 1 < MAXARGS && !LeadIn(xs, {'<', '>'})
    requires Lex(buf, s) == [Name(a.word)] + (RedirToks(a.post) + xs)
    ensures s' <= |buf| && Lex(buf, s') == xs && ParseArgs(buf, s, argv, redirs) == ParseArgs(buf, s', argv + [w], redirs')
    ensures Texts(buf, argv + [w]) == Texts(buf, argv) + [a.word] && Files(buf, redirs') == Files(buf, redirs) + Effects(a.post)
  {
    var stops := {'|', ')', '&', ';'};
    PeekLex(buf, s, stops);
    var t := Peek(buf, s, stops).1;
    Taken(buf, t, Name(a.word), RedirToks(a.post) + xs);
    var tok := GetToken(buf, t);
    RedirsParsed(a.post, buf, tok.next, redirs, xs);
    var rs := ParseRedirs(buf, tok.next, redirs);
    s', w, redirs' := rs.next, tok.span, rs.value;
    TextsSnoc(buf, argv, w);
  }

  lemma {:induction false} ArgsParsed(args: seq<Arg>, buf: string, s: nat, argv: seq<Span>, redirs: seq<Redirection>, rest: seq<Lexeme>)
    requires s <= |buf| && (forall i :: 0 <= i < |args| ==> OpsOk(args[i].post)) && |argv| + |args| < MAXARGS
    requires Lex(buf, s) == ArgToks(args) + rest && EndsPart(rest)
    ensures var r := ParseArgs(buf, s, argv, redirs);
            && r.Ok? && Lex(buf, r.next) == rest
            && Text(buf, r.value) == Redirected(Exec(Texts(buf, argv) + Words(args)), Files(buf, redirs) + ArgEffects(args))
    decreases |args|
  {
    if args == [] {
      ArgsDone(buf, s, argv, redirs, rest);
    } else {
      var a, more := args[0], args[1..];
      ArgHead(args, rest);
      ArgsLead(more, rest);
      var s', w, redirs' := ArgTurn(a, buf, s, argv, redirs, ArgToks(more) + rest);
      ArgsParsed(more, buf, s', argv + [w], redirs', rest);
      Assoc(Texts(buf, argv), [a.word], Words(more));
      Assoc(Files(buf, redirs), Effects(a.post), ArgEffects(more));
    }
  }

  lemma ArgsLead(args: seq<Arg>, rest: seq<Lexeme>)
    requires EndsPart(rest)
    ensures !LeadIn(ArgToks(args) + rest, {'<', '>'})
  {
    if args == [] {
      assert ArgToks(args) + rest == rest;
    }
  }

  lemma ArgsDone(buf: string, s: nat, argv: seq<Span>, redirs: seq<Redirection>, rest: seq<Lexeme>)
    requires s <= |buf| && Lex(buf, s) == ArgToks([]) + rest && EndsPart(rest)
    ensures var r := ParseArgs(buf, s, argv, redirs);
            && r.Ok? && Lex(buf, r.next) == rest
            && Text(buf, r.value) == Redirected(Exec(Texts(buf, argv) + Words([])), Files(buf, redirs) + ArgEffects([]))
  {
    var stops := {'|', ')', '&', ';'};
    PeekLex(buf, s, stops);
    assert ArgToks([]) + rest == rest;
    assert Texts(buf, argv) + Words([]) == Texts(buf, argv) && Files(buf, redirs) + ArgEffects([]) == Files(buf, redirs);
    ExecText(buf, argv);
    WrapText(buf, Exec(argv), redirs);
    var t := Peek(buf, s, stops).1;
    if rest == [] {
      Skipped(buf, GetToken(buf, t).next);
    }
  }

  lemma SimpleLead(pre: seq<Redirect>, args: seq<Arg>, rest: seq<Lexeme>)
    requires OpsOk(pre) && EndsPart(rest)
    ensures !LeadIn(RedirToks(pre) + ArgToks(args) + rest, {'('})
  {
    if pre == [] {
      if args == [] {
        assert RedirToks(pre) + ArgToks(args) + rest == rest;
      } else {
        assert (RedirToks(pre) + ArgToks(args) + rest)[0] == Name(args[0].word);
      }
    } else {
      assert (RedirToks(pre) + ArgToks(args) + rest)[0] == Op(pre[0].op);
    }
  }

  lemma SimpleParsed(p: Part, buf: string, s: nat, rest: seq<Lexeme>)
    requires s <= |buf| && p.Simple? && PartOk(p) && Lex(buf, s) == PartToks(p) + rest && EndsPart(rest)
    ensures var r := ParseExec(buf, s); r.Ok? && Lex(buf, r.next) == rest && Text(buf, r.value) == PartCmd(p)
  {
    SimpleLead(p.pre, p.args, rest);
    Assoc(RedirToks(p.pre), ArgToks(p.args), rest);
    var t := NotGroup(buf, s);
    ArgsLead(p.args, rest);
    RedirsParsed(p.pre, buf, t, [], ArgToks(p.args) + rest);
    var rs := ParseRedirs(buf, t, []);
    ArgsParsed(p.args, buf, rs.next, [], rs.value, rest);
    assert Texts(buf, []) + Words(p.args) == Words(p.args);
    assert Files(buf, []) + Effects(p.pre) == Effects(p.pre);
  }

  lemma NotGroup(buf: string, s: nat) returns (t: nat)
    requires s <= |buf| && !LeadIn(Lex(buf, s), {'('})
    ensures t <= |buf| && Lex(buf, t) == Lex(buf, s)
    ensures ParseExec(buf, s) == match ParseRedirs(buf, t, []) case Panic => Panic case Ok(redirs, u) => ParseArgs(buf, u, [], redirs)
  {
    PeekLex(buf, s, {'('});
    t := Peek(buf, s, {'('}).1;
  }

  // parseblock up to the line inside, and from the closing parenthesis on.
  lemma GroupOpens(buf: string, s: nat, xs: seq<Lexeme>) returns (t: nat, u: nat)
    requires s <= |buf| && Lex(buf, s) == [Op('(')] + xs
    ensures t < |buf| && buf[t] == '(' && u <= |buf| && u == GetToken(buf, t).next && Lex(buf, u) == xs
    ensures ParseExec(buf, s) == ParseBlock(buf, t)
  {
    Passed(buf, s, '(', xs);
    t := Peek(buf, s, {'('}).1;
    u := GetToken(buf, t).next;
  }

  lemma GroupCloses(buf: string, t: nat, u: nat, xs: seq<Lexeme>) returns (v: nat)
    requires t < |buf| && buf[t] == '(' && u == GetToken(buf, t).next && u <= |buf|
    requires ParseLine(buf, u).Ok? && Lex(buf, ParseLine(buf, u).next) == [Op(')')] + xs
    ensures v <= |buf| && Lex(buf, v) == xs
    ensures ParseBlock(buf, t) == match ParseRedirs(buf, v, []) case Panic => Panic case Ok(redirs, w) => Ok(Wrap(ParseLine(buf, u).value, redirs), w)
  {
    var line := ParseLine(buf, u);
    Passed(buf, line.next, ')', xs);
    v := GetToken(buf, Peek(buf, line.next, {')'}).1).next;
  }

  lemma GroupToks(inner: Line, post: seq<Redirect>, rest: seq<Lexeme>)
    ensures PartToks(Group(inner, post)) + rest == [Op('(')] + (LineToks(inner) + ([Op(')')] + (RedirToks(post) + rest)))
  {
  }

  // The redirections after a command in parentheses.
  lemma AfterGroup(post: seq<Redirect>, buf: string, cmd: Cmd<Span>, v: nat, rest: seq<Lexeme>)
    requires v <= |buf| && OpsOk(post) && Lex(buf, v) == RedirToks(post) + rest && !LeadIn(rest, {'<', '>'})
    ensures var r := ParseRedirs(buf, v, []);
            r.Ok? && Lex(buf, r.next) == rest && Text(buf, Wrap(cmd, r.value)) == Redirected(Text(buf, cmd), Effects(post))
  {
    RedirsParsed(post, buf, v, [], rest);
    WrapText(buf, cmd, ParseRedirs(buf, v, []).value);
    assert Files(buf, []) + Effects(post) == Effects(post);
  }

  lemma GroupFinish(inner: Line, post: seq<Redirect>, buf: string, t: nat, u: nat, rest: seq<Lexeme>)
    requires t < |buf| && buf[t] == '(' && u == GetToken(buf, t).next && u <= |buf| && OpsOk(post) && EndsPart(rest)
    requires ParseLine(buf, u).Ok? && Lex(buf, ParseLine(buf, u).next) == [Op(')')] + (RedirToks(post) + rest)
    requires Text(buf, ParseLine(buf, u).value) == LineCmd(inner)
    ensures var r := ParseBlock(buf, t); r.Ok? && Lex(buf, r.next) == rest && Text(buf, r.value) == PartCmd(Group(inner, post))
  {
    var v := GroupCloses(buf, t, u, RedirToks(post) + rest);
    AfterGroup(post, buf, ParseLine(buf, u).value, v, rest);
  }

  lemma {:induction false} PartParsed(p: Part, buf: string, s: nat, rest: seq<Lexeme>)
    requires s <= |buf| && PartOk(p) && Lex(buf, s) == PartToks(p) + rest && EndsPart(rest)
    ensures var r := ParseExec(buf, s); r.Ok? && Lex(buf, r.next) == rest && Text(buf, r.value) == PartCmd(p)
    decreases p
  {
    match p
    case Simple(_, _) =>
      SimpleParsed(p, buf, s, rest);
    case Group(inner, post) =>
      var tail := [Op(')')] + (RedirToks(post) + rest);
      GroupToks(inner, post, rest);
      var t, u := GroupOpens(buf, s, LineToks(inner) + tail);
      LineParsed(inner, buf, u, tail);
      GroupFinish(inner, post, buf, t, u, rest);
  }

  lemma {:induction false} PipeParsed(p: Pipeline, buf: string, s: nat, rest: seq<Lexeme>)
    requires s <= |buf| && PipeOk(p) && Lex(buf, s) == PipeToks(p) + rest && EndsPipe(rest)
    ensures var r := ParsePipe(buf, s); r.Ok? && Lex(buf, r.next) == rest && Text(buf, r.value) == PipeCmd(p)
    decreases p
  {
    if p.rest.None? {
      assert PipeToks(p) + rest == PartToks(p.first) + rest;
      PartParsed(p.first, buf, s, rest);
      PeekLex(buf, ParseExec(buf, s).next, {'|'});
    } else {
      var tail := PipeToks(p.rest.value) + rest;
      assert PipeToks(p) + rest == PartToks(p.first) + ([Op('|')] + tail);
      PartParsed(p.first, buf, s, [Op('|')] + tail);
      var t := ParseExec(buf, s).next;
      Passed(buf, t, '|', tail);
      PipeParsed(p.rest.value, buf, GetToken(buf, Peek(buf, t, {'|'}).1).next, rest);
    }
  }

  lemma BackTurn(buf: string, s: nat, cmd: Cmd<Span>, xs: seq<Lexeme>) returns (t: nat)
    requires s <= |buf| && Lex(buf, s) == [Op('&')] + xs
    ensures t <= |buf| && Lex(buf, t) == xs && Backs(buf, s, cmd) == Backs(buf, t, Back(cmd))
  {
    Passed(buf, s, '&', xs);
    t := GetToken(buf, Peek(buf, s, {'&'}).1).next;
  }

  lemma BacksDone(buf: string, s: nat, cmd: Cmd<Span>)
    requires s <= |buf| && !LeadIn(Lex(buf, s), {'&'})
    ensures Backs(buf, s, cmd).0 == cmd && Lex(buf, Backs(buf, s, cmd).1) == Lex(buf, s)
  {
    PeekLex(buf, s, {'&'});
  }

  lemma {:induction false} BacksParsed(n: nat, buf: string, s: nat, cmd: Cmd<Span>, rest: seq<Lexeme>)
    requires s <= |buf| && Lex(buf, s) == Amps(n) + rest && !LeadIn(rest, {'&'})
    ensures var (c, t) := Backs(buf, s, cmd); Lex(buf, t) == rest && Text(buf, c) == Backed(Text(buf, cmd), n)
    decreases n
  {
    if n == 0 {
      assert Amps(n) + rest == rest;
      BacksDone(buf, s, cmd);
    } else {
      Assoc([Op('&')], Amps(n - 1), rest);
      var t := BackTurn(buf, s, cmd, Amps(n - 1) + rest);
      BacksParsed(n - 1, buf, t, Back(cmd), rest);
    }
  }

  // What follows the first pipeline of a line.
  function AfterPipe(l: Line, rest: seq<Lexeme>): seq<Lexeme> {
    if l.rest.None? then rest else [Op(';')] + (LineToks(l.rest.value) + rest)
  }

  lemma LineSplit(l: Line, rest: seq<Lexeme>)
    ensures LineToks(l) + rest == PipeToks(l.first) + (Amps(l.amps) + AfterPipe(l, rest))
  {
  }

  // parseline after its first pipeline.
  lemma LineEnds(buf: string, s: nat, n: nat, c: Cmd<string>, xs: seq<Lexeme>)
    requires s <= |buf| && ParsePipe(buf, s).Ok? && Text(buf, ParsePipe(buf, s).value) == c
    requires Lex(buf, ParsePipe(buf, s).next) == Amps(n) + xs && !LeadIn(xs, {'&', ';'})
    ensures var r := ParseLine(buf, s); r.Ok? && Lex(buf, r.next) == xs && Text(buf, r.value) == Backed(c, n)
  {
    var first := ParsePipe(buf, s);
    BacksParsed(n, buf, first.next, first.value, xs);
    PeekLex(buf, Backs(buf, first.next, first.value).1, {';'});
  }

  lemma LineContinues(buf: string, s: nat, n: nat, c: Cmd<string>, xs: seq<Lexeme>) returns (v: nat)
    requires s <= |buf| && ParsePipe(buf, s).Ok? && Text(buf, ParsePipe(buf, s).value) == c
    requires Lex(buf, ParsePipe(buf, s).next) == Amps(n) + ([Op(';')] + xs)
    ensures v <= |buf| && Lex(buf, v) == xs
    ensures ParseLine(buf, v).Ok? ==>
              var r, more := ParseLine(buf, s), ParseLine(buf, v);
              r.Ok? && r.next == more.next && Text(buf, r.value) == List(Backed(c, n), Text(buf, more.value))
  {
    var first := ParsePipe(buf, s);
    BacksParsed(n, buf, first.next, first.value, [Op(';')] + xs);
    var u := Backs(buf, first.next, first.value).1;
    Passed(buf, u, ';', xs);
    v := GetToken(buf, Peek(buf, u, {';'}).1).next;
  }

  lemma {:induction false} LineParsed(l: Line, buf: string, s: nat, rest: seq<Lexeme>)
    requires s <= |buf| && LineOk(l) && Lex(buf, s) == LineToks(l) + rest && EndsLine(rest)
    ensures var r := ParseLine(buf, s); r.Ok? && Lex(buf, r.next) == rest && Text(buf, r.value) == LineCmd(l)
    decreases l
  {
    var more := AfterPipe(l, rest);
    LineSplit(l, rest);
    AmpsEnd(l.amps, more);
    PipeParsed(l.first, buf, s, Amps(l.amps) + more);
    if l.rest.None? {
      LineEnds(buf, s, l.amps, PipeCmd(l.first), rest);
    } else {
      var v := LineContinues(buf, s, l.amps, PipeCmd(l.first), LineToks(l.rest.value) + rest);
      LineParsed(l.rest.value, buf, v, rest);
    }
  }

  lemma AmpsEnd(n: nat, more: seq<Lexeme>)
    requires more == [] || LeadIn(more, {')', ';'})
    ensures EndsPipe(Amps(n) + more) && !LeadIn(more, {'&'})
  {
    if n == 0 {
      assert Amps(n) + more == more;
    } else {
      assert (Amps(n) + more)[0] == Op('&');
    }
  }

  // --- and nothing else is read --------------------------------------------------------------------------

  lemma {:induction false} RedirsRead(buf: string, s: nat, redirs: seq<Redirection>) returns (rs: seq<Redirect>)
    requires s <= |buf| && ParseRedirs(buf, s, redirs).Ok?
    ensures var r := ParseRedirs(buf, s, redirs);
            OpsOk(rs) && Lex(buf, s) == RedirToks(rs) + Lex(buf, r.next) && Files(buf, r.value) == Files(buf, redirs) + Effects(rs)
    decreases |buf| - s
  {
    var rest := Lex(buf, ParseRedirs(buf, s, redirs).next);
    if LeadIn(Lex(buf, s), {'<', '>'}) {
      var s', r', r := RedirTurnRead(buf, s, redirs);
      var more := RedirsRead(buf, s', redirs + [r']);
      rs := [r] + more;
      RedirHead(rs, rest);
      Assoc(Files(buf, redirs), [EffectOf(r)], Effects(more));
    } else {
      rs := [];
      RedirsDone(buf, s, redirs);
      assert RedirToks(rs) + rest == rest && Files(buf, redirs) + Effects(rs) == Files(buf, redirs);
    }
  }

  lemma RedirTurnRead(buf: string, s: nat, redirs: seq<Redirection>) returns (s': nat, r': Redirection, r: Redirect)
    requires s <= |buf| && ParseRedirs(buf, s, redirs).Ok? && LeadIn(Lex(buf, s), {'<', '>'})
    ensures s < s' <= |buf| && OpsOk([r]) && Lex(buf, s) == [Op(r.op)] + ([Name(r.file)] + Lex(buf, s'))
    ensures ParseRedirs(buf, s, redirs) == ParseRedirs(buf, s', redirs + [r'])
    ensures Files(buf, redirs + [r']) == Files(buf, redirs) + [EffectOf(r)]
  {
    PeekLex(buf, s, {'<', '>'});
    var t := Peek(buf, s, {'<', '>'}).1;
    var tok := GetToken(buf, t);
    var file := GetToken(buf, tok.next);
    s', r' := file.next, Redirection(file.span, if tok.kind == '<' then Input else Output);
    r := Redirect(tok.kind, TextOf(buf, file.span));
    assert Lex(buf, t) == [Op(tok.kind)] + Lex(buf, tok.next);
    assert Lex(buf, tok.next) == [Name(r.file)] + Lex(buf, s');
    FilesSnoc(buf, redirs, r');
  }

  lemma {:induction false} ArgsRead(buf: string, s: nat, argv: seq<Span>, redirs: seq<Redirection>) returns (args: seq<Arg>)
    requires s <= |buf| && ParseArgs(buf, s, argv, redirs).Ok? && |argv| < MAXARGS
    ensures var r := ParseArgs(buf, s, argv, redirs);
            && (forall i :: 0 <= i < |args| ==> OpsOk(args[i].post)) && |argv| + |args| < MAXARGS
            && Lex(buf, s) == ArgToks(args) + Lex(buf, r.next)
            && Text(buf, r.value) == Redirected(Exec(Texts(buf, argv) + Words(args)), Files(buf, redirs) + ArgEffects(args))
    decreases |buf| - s
  {
    if EndsPart(Lex(buf, s)) {
      args := [];
      assert ArgToks(args) + Lex(buf, s) == Lex(buf, s);
      ArgsDone(buf, s, argv, redirs, Lex(buf, s));
    } else {
      var rest := Lex(buf, ParseArgs(buf, s, argv, redirs).next);
      var s', w, redirs', a := ArgTurnRead(buf, s, argv, redirs);
      var more := ArgsRead(buf, s', argv + [w], redirs');
      args := [a] + more;
      ArgHead(args, rest);
      Assoc(Texts(buf, argv), [a.word], Words(more));
      Assoc(Files(buf, redirs), Effects(a.post), ArgEffects(more));
    }
  }

  lemma ArgTurnRead(buf: string, s: nat, argv: seq<Span>, redirs: seq<Redirection>)
    returns (s': nat, w: Span, redirs': seq<Redirection>, a: Arg)
    requires s <= |buf| && ParseArgs(buf, s, argv, redirs).Ok? && !EndsPart(Lex(buf, s))
    ensures s < s' <= |buf| && |argv| + 1 < MAXARGS && OpsOk(a.post)
    ensures Lex(buf, s) == [Name(a.word)] + (RedirToks(a.post) + Lex(buf, s'))
    ensures ParseArgs(buf, s, argv, redirs) == ParseArgs(buf, s', argv + [w], redirs')
    ensures Texts(buf, argv + [w]) == Texts(buf, argv) + [a.word] && Files(buf, redirs') == Files(buf, redirs) + Effects(a.post)
  {
    var stops := {'|', ')', '&', ';'};
    PeekLex(buf, s, stops);
    var t := Peek(buf, s, stops).1;
    var tok := GetToken(buf, t);
    assert Lex(buf, t) == [LexemeOf(buf, tok)] + Lex(buf, tok.next);
    var rs := ParseRedirs(buf, tok.next, redirs);
    var post := RedirsRead(buf, tok.next, redirs);
    s', w, redirs', a := rs.next, tok.span, rs.value, Arg(TextOf(buf, tok.span), post);
    TextsSnoc(buf, argv, w);
  }

  lemma SimpleRead(buf: string, s: nat) returns (p: Part)
    requires s <= |buf| && ParseExec(buf, s).Ok? && !LeadIn(Lex(buf, s), {'('})
    ensures var r := ParseExec(buf, s); PartOk(p) && Lex(buf, s) == PartToks(p) + Lex(buf, r.next) && Text(buf, r.value) == PartCmd(p)
  {
    var t := NotGroup(buf, s);
    var rs := ParseRedirs(buf, t, []);
    var pre := RedirsRead(buf, t, []);
    var args := ArgsRead(buf, rs.next, [], rs.value);
    p := Simple(pre, args);
    assert Texts(buf, []) + Words(args) == Words(args) && Files(buf, []) + Effects(pre) == Effects(pre);
    Assoc(RedirToks(pre), ArgToks(args), Lex(buf, ParseExec(buf, s).next));
  }

  // parseblock, taken apart.
  lemma GroupParts(buf: string, s: nat) returns (t: nat, u: nat, v: nat)
    requires s <= |buf| && ParseExec(buf, s).Ok? && LeadIn(Lex(buf, s), {'('})
    ensures s < u <= |buf| && v <= |buf| && Lex(buf, s) == [Op('(')] + Lex(buf, u)
    ensures ParseLine(buf, u).Ok? && Lex(buf, ParseLine(buf, u).next) == [Op(')')] + Lex(buf, v) && ParseRedirs(buf, v, []).Ok?
    ensures ParseExec(buf, s) == Ok(Wrap(ParseLine(buf, u).value, ParseRedirs(buf, v, []).value), ParseRedirs(buf, v, []).next)
  {
    PeekLex(buf, s, {'('});
    t := Peek(buf, s, {'('}).1;
    u := GetToken(buf, t).next;
    assert Lex(buf, t) == [Op('(')] + Lex(buf, u);
    var line := ParseLine(buf, u);
    PeekLex(buf, line.next, {')'});
    var w := Peek(buf, line.next, {')'}).1;
    v := GetToken(buf, w).next;
    assert Lex(buf, w) == [Op(')')] + Lex(buf, v);
  }

  lemma {:induction false} PartRead(buf: string, s: nat) returns (p: Part)
    requires s <= |buf| && ParseExec(buf, s).Ok?
    ensures var r := ParseExec(buf, s); PartOk(p) && Lex(buf, s) == PartToks(p) + Lex(buf, r.next) && Text(buf, r.value) == PartCmd(p)
    decreases |buf| - s, 0
  {
    if LeadIn(Lex(buf, s), {'('}) {
      var t, u, v := GroupParts(buf, s);
      var inner := LineRead(buf, u);
      var post := RedirsRead(buf, v, []);
      p := Group(inner, post);
      GroupToks(inner, post, Lex(buf, ParseExec(buf, s).next));
      GroupText(buf, ParseLine(buf, u).value, ParseRedirs(buf, v, []).value, post);
    } else {
      p := SimpleRead(buf, s);
    }
  }

  lemma GroupText(buf: string, cmd: Cmd<Span>, redirs: seq<Redirection>, post: seq<Redirect>)
    requires Files(buf, redirs) == Files(buf, []) + Effects(post)
    ensures Text(buf, Wrap(cmd, redirs)) == Redirected(Text(buf, cmd), Effects(post))
  {
    WrapText(buf, cmd, redirs);
    assert Files(buf, []) + Effects(post) == Effects(post);
  }

  lemma {:induction false} PipeRead(buf: string, s: nat) returns (p: Pipeline)
    requires s <= |buf| && ParsePipe(buf, s).Ok?
    ensures var r := ParsePipe(buf, s); PipeOk(p) && Lex(buf, s) == PipeToks(p) + Lex(buf, r.next) && Text(buf, r.value) == PipeCmd(p)
    decreases |buf| - s, 1
  {
    var first := PartRead(buf, s);
    var t := ParseExec(buf, s).next;
    PeekLex(buf, t, {'|'});
    var (more, u) := Peek(buf, t, {'|'});
    if more {
      var v := GetToken(buf, u).next;
      assert Lex(buf, u) == [Op('|')] + Lex(buf, v);
      var rest := PipeRead(buf, v);
      p := Pipeline(first, Some(rest));
      PipeToksMore(first, rest, Lex(buf, ParsePipe(buf, s).next));
    } else {
      p := Pipeline(first, None);
      assert PipeToks(p) == PartToks(first);
    }
  }

  lemma PipeToksMore(first: Part, rest: Pipeline, xs: seq<Lexeme>)
    ensures PipeToks(Pipeline(first, Some(rest))) + xs == PartToks(first) + ([Op('|')] + (PipeToks(rest) + xs))
  {
  }

  lemma {:induction false} BacksRead(buf: string, s: nat, cmd: Cmd<Span>) returns (n: nat)
    requires s <= |buf|
    ensures var (c, t) := Backs(buf, s, cmd); Lex(buf, s) == Amps(n) + Lex(buf, t) && Text(buf, c) == Backed(Text(buf, cmd), n)
    decreases |Lex(buf, s)|
  {
    var rest := Lex(buf, Backs(buf, s, cmd).1);
    if LeadIn(Lex(buf, s), {'&'}) {
      var xs := Lex(buf, s)[1..];
      assert Lex(buf, s) == [Op('&')] + xs;
      var t := BackTurn(buf, s, cmd, xs);
      var m := BacksRead(buf, t, Back(cmd));
      n := m + 1;
      Assoc([Op('&')], Amps(m), rest);
    } else {
      n := 0;
      BacksDone(buf, s, cmd);
      assert Amps(n) + rest == rest;
    }
  }

  // parseline, taken apart.
  lemma LineParts(buf: string, s: nat, n: nat) returns (v: Option<nat>)
    requires s <= |buf| && ParseLine(buf, s).Ok?
    requires var first := ParsePipe(buf, s);
             && first.Ok?
             && var (c, u) := Backs(buf, first.next, first.value);
                Lex(buf, first.next) == Amps(n) + Lex(buf, u) && Text(buf, c) == Backed(Text(buf, first.value), n)
    ensures var first, r := ParsePipe(buf, s), ParseLine(buf, s);
            if v.None? then Lex(buf, first.next) == Amps(n) + Lex(buf, r.next) && Text(buf, r.value) == Backed(Text(buf, first.value), n)
            else
              && s < v.value <= |buf| && Lex(buf, first.next) == Amps(n) + ([Op(';')] + Lex(buf, v.value))
              && ParseLine(buf, v.value).Ok? && r.next == ParseLine(buf, v.value).next
              && Text(buf, r.value) == List(Backed(Text(buf, first.value), n), Text(buf, ParseLine(buf, v.value).value))
  {
    var first := ParsePipe(buf, s);
    var u := Backs(buf, first.next, first.value).1;
    PeekLex(buf, u, {';'});
    var (more, t) := Peek(buf, u, {';'});
    v := None;
    if more {
      v := Some(GetToken(buf, t).next);
      assert Lex(buf, t) == [Op(';')] + Lex(buf, v.value);
    }
  }

  lemma {:induction false} LineRead(buf: string, s: nat) returns (l: Line)
    requires s <= |buf| && ParseLine(buf, s).Ok?
    ensures var r := ParseLine(buf, s); LineOk(l) && Lex(buf, s) == LineToks(l) + Lex(buf, r.next) && Text(buf, r.value) == LineCmd(l)
    decreases |buf| - s, 2
  {
    var first := PipeRead(buf, s);
    var p, rest := ParsePipe(buf, s), Lex(buf, ParseLine(buf, s).next);
    var n := BacksRead(buf, p.next, p.value);
    var v := LineParts(buf, s, n);
    if v.Some? {
      var more := LineRead(buf, v.value);
      l := Line(first, n, Some(more));
    } else {
      l := Line(first, n, None);
    }
    LineSplit(l, rest);
  }

  // --- the whole line --------------------------------------------------------------------------------------

  // The parser accepts exactly the command lines of the grammar, and reads each as what it means.
  lemma ParsesExactly(buf: string)
    ensures ParseCmd(buf).Ok? <==> exists l :: LineOk(l) && Lex(buf, 0) == LineToks(l)
    ensures forall l :: LineOk(l) && Lex(buf, 0) == LineToks(l) ==>
              ParseCmd(buf).Ok? && Text(buf, ParseCmd(buf).value) == LineCmd(l)
  {
    forall l | LineOk(l) && Lex(buf, 0) == LineToks(l)
      ensures ParseCmd(buf).Ok? && Text(buf, ParseCmd(buf).value) == LineCmd(l)
    {
      assert LineToks(l) + [] == LineToks(l);
      LineParsed(l, buf, 0, []);
      AtEnd(buf, ParseLine(buf, 0).next);
    }
    if ParseCmd(buf).Ok? {
      var l := LineRead(buf, 0);
      AtEnd(buf, ParseLine(buf, 0).next);
      assert LineToks(l) + [] == LineToks(l);
    }
  }

  lemma AtEnd(buf: string, t: nat)
    requires t <= |buf|
    ensures Lex(buf, t) == [] <==> SkipSpace(buf, t) == |buf|
  {
  }

  // --- lexemes as text -----------------------------------------------------------------------------------

  ghost predicate Word(w: string) {
    |w| > 0 && forall i :: 0 <= i < |w| ==> IsWordChar(w[i])
  }

  ghost predicate Blank(g: string) {
    forall i :: 0 <= i < |g| ==> IsSpace(g[i])
  }

  ghost predicate LexemeOk(x: Lexeme) {
    match x
    case Name(w) => Word(w)
    case Op(k) => IsSymbol(k) || k == '+'
  }

  function Spell(x: Lexeme): string {
    match x
    case Name(w) => w
    case Op(k) => if k == '+' then ">>" else [k]
  }

  // Without white space between them they would be read as something else.
  predicate Glued(x: Lexeme, y: Lexeme) {
    (x.Name? && y.Name?) || (x == Op('>') && (y == Op('>') || y == Op('+')))
  }

  // Any white space before, between and after the lexemes, and some where it is needed.
  ghost predicate Spaced(xs: seq<Lexeme>, gaps: seq<string>) {
    && |gaps| == |xs| + 1 && (forall i :: 0 <= i < |gaps| ==> Blank(gaps[i]))
    && (forall i :: 0 <= i < |xs| ==> LexemeOk(xs[i]))
    && (forall i :: 0 <= i < |xs| - 1 && Glued(xs[i], xs[i + 1]) ==> gaps[i + 1] != "")
  }

  function Render(xs: seq<Lexeme>, gaps: seq<string>): string
    requires |gaps| == |xs| + 1
  {
    if xs == [] then gaps[0] else gaps[0] + Spell(xs[0]) + Render(xs[1..], gaps[1..])
  }

  lemma {:induction false} SkipTo(buf: string, s: nat, e: nat)
    requires s <= e <= |buf| && Blank(buf[s..e]) && (e < |buf| ==> !IsSpace(buf[e]))
    ensures SkipSpace(buf, s) == e
    decreases e - s
  {
    if s < e {
      assert IsSpace(buf[s..e][0]) && buf[s + 1..e] == buf[s..e][1..];
      SkipTo(buf, s + 1, e);
    }
  }

  lemma {:induction false} SkippedBlank(buf: string, s: nat)
    requires s <= |buf|
    ensures Blank(buf[s..SkipSpace(buf, s)])
    decreases |buf| - s
  {
    if s < |buf| && IsSpace(buf[s]) {
      SkippedBlank(buf, s + 1);
      var e := SkipSpace(buf, s);
      assert buf[s..e] == [buf[s]] + buf[s + 1..e];
    }
  }

  lemma {:induction false} WordTo(buf: string, s: nat, e: nat)
    requires s <= e <= |buf| && (forall i :: s <= i < e ==> IsWordChar(buf[i])) && (e < |buf| ==> !IsWordChar(buf[e]))
    ensures WordEnd(buf, s) == e
    decreases e - s
  {
    if s < e {
      WordTo(buf, s + 1, e);
    }
  }

  // Nothing after x at e makes it longer.
  ghost predicate Separate(buf: string, x: Lexeme, e: nat) {
    e < |buf| ==> (x.Name? ==> !IsWordChar(buf[e])) && (x == Op('>') ==> buf[e] != '>')
  }

  // One lexeme at q, after white space from s on.
  lemma LexOne(buf: string, s: nat, q: nat, x: Lexeme, e: nat)
    requires s <= q <= e <= |buf| && Blank(buf[s..q]) && LexemeOk(x) && buf[q..e] == Spell(x) && Separate(buf, x, e)
    ensures Lex(buf, s) == [x] + Lex(buf, e)
  {
    assert buf[q] == Spell(x)[0];
    SkipTo(buf, s, q);
    if x.Name? {
      forall i | q <= i < e ensures IsWordChar(buf[i]) {
        assert buf[i] == x.text[i - q];
      }
      WordTo(buf, q, e);
    } else if x == Op('+') {
      assert buf[q + 1] == Spell(x)[1];
    }
    var t := GetToken(buf, s);
    assert t.next == SkipSpace(buf, e) && LexemeOf(buf, t) == x && t.kind != NUL;
    Skipped(buf, e);
  }

  lemma RenderSeparate(buf: string, e: nat, x: Lexeme, xs: seq<Lexeme>, gaps: seq<string>)
    requires e <= |buf| && Spaced(xs, gaps) && LexemeOk(x) && buf[e..] == Render(xs, gaps)
    requires xs != [] && Glued(x, xs[0]) ==> gaps[0] != ""
    ensures Separate(buf, x, e)
  {
    if e < |buf| {
      assert buf[e] == Render(xs, gaps)[0];
      if gaps[0] != "" {
        assert buf[e] == gaps[0][0] && Blank(gaps[0]);
      } else {
        assert xs != [] && buf[e] == Spell(xs[0])[0] && LexemeOk(xs[0]);
      }
    }
  }

  lemma SpacedTail(xs: seq<Lexeme>, gaps: seq<string>)
    requires xs != [] && Spaced(xs, gaps)
    ensures Spaced(xs[1..], gaps[1..]) && (|xs| > 1 && Glued(xs[0], xs[1]) ==> gaps[1] != "")
  {
    forall i | 0 <= i < |xs[1..]| - 1 && Glued(xs[1..][i], xs[1..][i + 1]) ensures gaps[1..][i + 1] != "" {
      assert Glued(xs[i + 1], xs[i + 1 + 1]);
    }
  }

  // What is written as lexemes is read as these lexemes.
  lemma {:induction false} LexRender(buf: string, s: nat, xs: seq<Lexeme>, gaps: seq<string>)
    requires s <= |buf| && Spaced(xs, gaps) && buf[s..] == Render(xs, gaps)
    ensures Lex(buf, s) == xs
    decreases |xs|
  {
    if xs == [] {
      assert buf[s..|buf|] == buf[s..] == gaps[0];
      SkipTo(buf, s, |buf|);
    } else {
      var e := FirstRendered(buf, s, xs, gaps);
      LexRender(buf, e, xs[1..], gaps[1..]);
    }
  }

  lemma FirstRendered(buf: string, s: nat, xs: seq<Lexeme>, gaps: seq<string>) returns (e: nat)
    requires s <= |buf| && xs != [] && Spaced(xs, gaps) && buf[s..] == Render(xs, gaps)
    ensures e <= |buf| && buf[e..] == Render(xs[1..], gaps[1..]) && Spaced(xs[1..], gaps[1..]) && Lex(buf, s) == [xs[0]] + Lex(buf, e)
  {
    var q := s + |gaps[0]|;
    e := q + |Spell(xs[0])|;
    SpacedTail(xs, gaps);
    Cut(buf, s, gaps[0], Spell(xs[0]), Render(xs[1..], gaps[1..]));
    RenderSeparate(buf, e, xs[0], xs[1..], gaps[1..]);
    LexOne(buf, s, q, xs[0], e);
  }

  lemma Cut(buf: string, s: nat, a: string, b: string, c: string)
    requires s <= |buf| && buf[s..] == a + b + c
    ensures var q := s + |a|; var e := q + |b|;
            e <= |buf| && buf[s..q] == a && buf[q..e] == b && buf[e..] == c
  {
    var q := s + |a|;
    var e := q + |b|;
    assert buf[s..q] == buf[s..][..|a|] && buf[q..e] == buf[s..][|a|..|a| + |b|] && buf[e..] == buf[s..][|a| + |b|..];
  }

  lemma RenderCons(x: Lexeme, xs: seq<Lexeme>, gap: string, gaps: seq<string>)
    requires |gaps| == |xs| + 1
    ensures Render([x] + xs, [gap] + gaps) == gap + Spell(x) + Render(xs, gaps)
  {
    assert ([x] + xs)[1..] == xs && ([gap] + gaps)[1..] == gaps;
  }

  lemma LexSplit(buf: string, s: nat)
    requires s <= |buf| && GetToken(buf, s).kind != NUL
    ensures var t := GetToken(buf, s); Lex(buf, s) == [LexemeOf(buf, t)] + Lex(buf, t.span.eq)
  {
    LexemeSpelt(buf, s);
    Skipped(buf, GetToken(buf, s).span.eq);
  }

  // Every line is its lexemes with white space around them.
  lemma {:induction false} Rendered(buf: string, s: nat) returns (gaps: seq<string>)
    requires s <= |buf|
    ensures Spaced(Lex(buf, s), gaps) && buf[s..] == Render(Lex(buf, s), gaps)
    decreases |buf| - s
  {
    var t := GetToken(buf, s);
    SkippedBlank(buf, s);
    if t.kind == NUL {
      gaps := [buf[s..]];
      assert buf[s..|buf|] == buf[s..];
    } else {
      var q, e, x := t.span.q, t.span.eq, LexemeOf(buf, t);
      LexemeSpelt(buf, s);
      LexSplit(buf, s);
      var more := Rendered(buf, e);
      gaps := OneMoreGap(buf, s, q, e, x, Lex(buf, e), more);
    }
  }

  lemma OneMoreGap(buf: string, s: nat, q: nat, e: nat, x: Lexeme, xs: seq<Lexeme>, more: seq<string>) returns (gaps: seq<string>)
    requires s <= q <= e <= |buf| && Blank(buf[s..q]) && LexemeOk(x) && buf[q..e] == Spell(x) && Separate(buf, x, e)
    requires Spaced(xs, more) && buf[e..] == Render(xs, more)
    ensures Spaced([x] + xs, gaps) && buf[s..] == Render([x] + xs, gaps)
  {
    gaps := [buf[s..q]] + more;
    SpacedCons(x, xs, buf[s..q], more, buf, e);
    RenderCons(x, xs, buf[s..q], more);
    assert buf[s..] == buf[s..q] + buf[q..e] + buf[e..];
  }

  lemma LexemeSpelt(buf: string, s: nat)
    requires s <= |buf| && GetToken(buf, s).kind != NUL
    ensures var t := GetToken(buf, s);
            var x := LexemeOf(buf, t);
            && t.span.q == SkipSpace(buf, s) && t.next == SkipSpace(buf, t.span.eq) && s < t.span.eq
            && LexemeOk(x) && buf[t.span.q..t.span.eq] == Spell(x) && Separate(buf, x, t.span.eq)
  {
    var q := SkipSpace(buf, s);
    WordEndOk(buf, q);
    if GetToken(buf, s).kind == 'a' {
      TokenIsWord(buf, s);
    }
  }

  lemma SpacedCons(x: Lexeme, xs: seq<Lexeme>, gap: string, gaps: seq<string>, buf: string, e: nat)
    requires Spaced(xs, gaps) && Blank(gap) && LexemeOk(x) && e <= |buf| && buf[e..] == Render(xs, gaps) && Separate(buf, x, e)
    ensures Spaced([x] + xs, [gap] + gaps)
  {
    if xs != [] && Glued(x, xs[0]) && gaps[0] == "" {
      assert LexemeOk(xs[0]) && buf[e] == Render(xs, gaps)[0] == Spell(xs[0])[0];
    }
    forall i | 0 <= i < |xs| && Glued(([x] + xs)[i], ([x] + xs)[i + 1]) ensures ([gap] + gaps)[i + 1] != "" {
      if i > 0 {
        assert Glued(xs[i - 1], xs[i - 1 + 1]);
      }
    }
  }

  // A command line written with any white space is read as the tree it means.
  lemma Inverts(l: Line, gaps: seq<string>)
    requires LineOk(l) && Spaced(LineToks(l), gaps)
    ensures var buf := Render(LineToks(l), gaps); ParseCmd(buf).Ok? && Text(buf, ParseCmd(buf).value) == LineCmd(l)
  {
    var buf := Render(LineToks(l), gaps);
    assert buf[0..] == buf;
    LexRender(buf, 0, LineToks(l), gaps);
    ParsesExactly(buf);
  }

  // And only such lines are accepted.
  lemma AcceptedExactly(buf: string)
    ensures ParseCmd(buf).Ok? <==> exists l, gaps :: LineOk(l) && Spaced(LineToks(l), gaps) && buf == Render(LineToks(l), gaps)
  {
    ParsesExactly(buf);
    if ParseCmd(buf).Ok? {
      var l :| LineOk(l) && Lex(buf, 0) == LineToks(l);
      var gaps := Rendered(buf, 0);
      assert buf[0..] == buf;
    }
    if l, gaps :| LineOk(l) && Spaced(LineToks(l), gaps) && buf == Render(LineToks(l), gaps) {
      Inverts(l, gaps);
    }
  }

  // --- printing any tree -----------------------------------------------------------------------------------

  ghost predicate Printable(c: Cmd<string>) {
    match c
    case Exec(argv) => |argv| < MAXARGS && forall i :: 0 <= i < |argv| ==> Word(argv[i])
    case Redir(c, file, _) => Printable(c) && Word(file)
    case Pipe(l, r) => Printable(l) && Printable(r)
    case List(l, r) => Printable(l) && Printable(r)
    case Back(c) => Printable(c)
  }

  function Plain(words: seq<string>): seq<Arg> {
    if words == [] then [] else [Arg(words[0], [])] + Plain(words[1..])
  }

  function Just(p: Part): Line {
    Line(Pipeline(p, None), 0, None)
  }

  // Every part of a command in parentheses.
  function Syntax(c: Cmd<string>): Line {
    match c
    case Exec(argv) => Just(Simple([], Plain(argv)))
    case Redir(d, file, mode) => Just(Group(Syntax(d), [Redirect(if mode.Input? then '<' else '>', file)]))
    case Pipe(l, r) => Line(Pipeline(Group(Syntax(l), []), Some(Pipeline(Group(Syntax(r), []), None))), 0, None)
    case List(l, r) => Line(Pipeline(Group(Syntax(l), []), None), 0, Some(Just(Group(Syntax(r), []))))
    case Back(d) => Line(Pipeline(Group(Syntax(d), []), None), 1, None)
  }

  lemma {:induction false} PlainArgs(words: seq<string>)
    requires forall i :: 0 <= i < |words| ==> Word(words[i])
    ensures |Plain(words)| == |words| && Words(Plain(words)) == words && ArgEffects(Plain(words)) == []
    ensures (forall i :: 0 <= i < |words| ==> OpsOk(Plain(words)[i].post)) && AllOk(ArgToks(Plain(words)))
  {
    if words != [] {
      PlainArgs(words[1..]);
      var args := Plain(words);
      assert args[1..] == Plain(words[1..]);
      assert ArgToks(args) == [Name(words[0])] + ArgToks(args[1..]);
    }
  }

  ghost predicate AllOk(xs: seq<Lexeme>) {
    forall i :: 0 <= i < |xs| ==> LexemeOk(xs[i])
  }

  lemma PipeOne(p: Part)
    requires PartOk(p) && AllOk(PartToks(p))
    ensures var q := Pipeline(p, None); PipeOk(q) && PipeCmd(q) == PartCmd(p) && AllOk(PipeToks(q))
  {
  }

  lemma LineOne(q: Pipeline, n: nat)
    requires PipeOk(q) && AllOk(PipeToks(q)) && n <= 1
    ensures var l := Line(q, n, None);
            LineOk(l) && LineCmd(l) == (if n == 0 then PipeCmd(q) else Back(PipeCmd(q))) && AllOk(LineToks(l))
  {
    assert Backed(PipeCmd(q), 1) == Back(PipeCmd(q));
    assert Amps(1) == [Op('&')];
  }

  lemma GroupOne(inner: Line, post: seq<Redirect>)
    requires LineOk(inner) && AllOk(LineToks(inner)) && OpsOk(post) && |post| <= 1 && (|post| == 1 ==> Word(post[0].file))
    ensures var p := Group(inner, post);
            && PartOk(p) && AllOk(PartToks(p))
            && PartCmd(p) == if post == [] then LineCmd(inner) else Redir(LineCmd(inner), post[0].file, EffectOf(post[0]).1)
  {
    if post != [] {
      assert post[1..] == [] && Effects(post) == [EffectOf(post[0])] && Effects(post)[..0] == [];
      assert Redirected(LineCmd(inner), Effects(post)[..0]) == LineCmd(inner);
      assert RedirToks(post) == [Op(post[0].op), Name(post[0].file)];
    }
  }

  lemma {:induction false} SyntaxMeans(c: Cmd<string>)
    requires Printable(c)
    ensures LineOk(Syntax(c)) && LineCmd(Syntax(c)) == c && AllOk(LineToks(Syntax(c)))
    decreases c, 1
  {
    match c
    case Exec(argv) =>
      PlainArgs(argv);
      assert Effects([]) + [] == [];
      PipeOne(Simple([], Plain(argv)));
      LineOne(Pipeline(Simple([], Plain(argv)), None), 0);
    case Redir(d, file, mode) =>
      SyntaxMeans(d);
      var p := Group(Syntax(d), [Redirect(if mode.Input? then '<' else '>', file)]);
      GroupOne(p.inner, p.post);
      PipeOne(p);
      LineOne(Pipeline(p, None), 0);
    case Pipe(l, r) =>
      GroupMeans(l);
      GroupMeans(r);
      var p, q := Group(Syntax(l), []), Pipeline(Group(Syntax(r), []), None);
      assert PipeOk(Pipeline(p, Some(q))) && PipeCmd(Pipeline(p, Some(q))) == c;
      assert AllOk(PipeToks(Pipeline(p, Some(q))));
      LineOne(Pipeline(p, Some(q)), 0);
    case List(l, r) =>
      GroupMeans(l);
      GroupMeans(r);
      LineOne(Pipeline(Group(Syntax(l), []), None), 0);
      LineOne(Pipeline(Group(Syntax(r), []), None), 0);
    case Back(d) =>
      GroupMeans(d);
      LineOne(Pipeline(Group(Syntax(d), []), None), 1);
  }

  lemma {:induction false} GroupMeans(c: Cmd<string>)
    requires Printable(c)
    ensures var p := Group(Syntax(c), []);
            && PartOk(p) && PartCmd(p) == c && AllOk(PartToks(p))
            && PipeOk(Pipeline(p, None)) && PipeCmd(Pipeline(p, None)) == c && AllOk(PipeToks(Pipeline(p, None)))
    decreases c, 2
  {
    SyntaxMeans(c);
    GroupOne(Syntax(c), []);
    PipeOne(Group(Syntax(c), []));
  }

  function Spaces(n: nat): (r: seq<string>)
    ensures |r| == n && forall i :: 0 <= i < n ==> r[i] == " "
  {
    if n == 0 then [] else [" "] + Spaces(n - 1)
  }

  function Print(c: Cmd<string>): string {
    var xs := LineToks(Syntax(c));
    Render(xs, Spaces(|xs| + 1))
  }

  // A printed command, parsed as a whole line, comes back as it was.
  lemma RoundTrip(c: Cmd<string>)
    requires Printable(c)
    ensures var r := ParseCmd(Print(c)); r.Ok? && Text(Print(c), r.value) == c
  {
    SyntaxMeans(c);
    Inverts(Syntax(c), Spaces(|LineToks(Syntax(c))| + 1));
  }

  lemma {:induction false} PrintableText(buf: string, cmd: Cmd<Span>)
    requires WordsOk(buf, cmd)
    ensures Printable(Text(buf, cmd))
  {
    match cmd
    case Exec(argv) =>
      forall i | 0 <= i < |argv| ensures Word(TextOf(buf, argv[i])) {
        assert IsWord(buf, argv[i]);
      }
    case Redir(c, file, _) => PrintableText(buf, c);
    case Pipe(l, r) =>
      PrintableText(buf, l);
      PrintableText(buf, r);
    case List(l, r) =>
      PrintableText(buf, l);
      PrintableText(buf, r);
    case Back(c) => PrintableText(buf, c);
  }

  // Whatever line the parser accepts, printing its tree in full parentheses and parsing that gives
  // the same tree.
  lemma Reparse(buf: string)
    requires ParseCmd(buf).Ok?
    ensures var c := Text(buf, ParseCmd(buf).value);
            var again := ParseCmd(Print(c)); again.Ok? && Text(Print(c), again.value) == c
  {
    LineWords(buf, 0);
    PrintableText(buf, ParseCmd(buf).value);
    RoundTrip(Text(buf, ParseCmd(buf).value));
  }
}
