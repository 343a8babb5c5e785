/**
 The shell's parser: tokens, the recursive-descent parser over a cursor into the command line,
 and the in-place termination of the words it points at.
 */
module Shell {

  const MAXARGS := 10
  const NUL := '\0'

  predicate IsSpace(c: char) {
    c == ' ' || c == '\t' || c == '\r' || c == '\n' || c == '\U{0B}'
  }

  predicate IsSymbol(c: char) {
    c == '<' || c == '|' || c == '>' || c == '&' || c == ';' || c == '(' || c == ')'
  }

  predicate IsWordChar(c: char) {
    !IsSpace(c) && !IsSymbol(c)
  }

  // --- command trees ------------------------------------------------------------------------

  // < opens for reading on descriptor 0; > and >> both create and open for writing on 1.
  datatype Mode = Input | Output

  // W is what a word is: a stretch of the command line, or its text.
  datatype Cmd<W> =
    | Exec(argv: seq<W>)
    | Redir(cmd: Cmd<W>, file: W, mode: Mode)
    | Pipe(left: Cmd<W>, right: Cmd<W>)
    | List(left: Cmd<W>, right: Cmd<W>)
    | Back(cmd: Cmd<W>)

  datatype Span = Span(q: nat, eq: nat)

  datatype Redirection = Redirection(file: Span, mode: Mode)

  datatype Result<T> = Ok(value: T, next: nat) | Panic

  // --- tokens ---------------------------------------------------------------------------------

  function SkipSpace(buf: string, s: nat): (r: nat)
    requires s <= |buf|
    ensures s <= r <= |buf| && (r < |buf| ==> !IsSpace(buf[r]))
    decreases |buf| - s
  {
    if s < |buf| && IsSpace(buf[s]) then SkipSpace(buf, s + 1) else s
  }

  function WordEnd(buf: string, s: nat): (r: nat)
    requires s <= |buf|
    ensures s <= r <= |buf| && (s < |buf| && IsWordChar(buf[s]) ==> s < r)
    decreases |buf| - s
  {
    if s < |buf| && IsWordChar(buf[s]) then WordEnd(buf, s + 1) else s
  }

  // A token's kind is its character, '+' for >>, 'a' for a word and NUL at the end.
  datatype Token = Token(kind: char, span: Span, next: nat)

  function GetToken(buf: string, s: nat): (t: Token)
    requires s <= |buf|
    ensures s <= t.span.q <= t.span.eq <= t.next <= |buf|
    ensures t.kind == NUL || t.next > s || t.span.q == |buf|
  {
    var q := SkipSpace(buf, s);
    if q == |buf| then Token(NUL, Span(q, q), q)
    else if buf[q] == '>' && q + 1 < |buf| && buf[q + 1] == '>' then Token('+', Span(q, q + 2), SkipSpace(buf, q + 2))
    else if IsSymbol(buf[q]) then Token(buf[q], Span(q, q + 1), SkipSpace(buf, q + 1))
    else
      var e := WordEnd(buf, q);
      Token('a', Span(q, e), SkipSpace(buf, e))
  }

  // A longest run of word characters.
  predicate IsWord(buf: string, w: Span) {
    && w.q < w.eq <= |buf|
    && (forall k :: w.q <= k < w.eq ==> IsWordChar(buf[k]))
    && (w.eq < |buf| ==> !IsWordChar(buf[w.eq]))
  }

  lemma {:induction false} WordEndOk(buf: string, s: nat)
    requires s <= |buf|
    ensures var r := WordEnd(buf, s);
            (forall k :: s <= k < r ==> IsWordChar(buf[k])) && (r < |buf| ==> !IsWordChar(buf[r]))
    decreases |buf| - s
  {
    if s < |buf| && IsWordChar(buf[s]) {
      WordEndOk(buf, s + 1);
    }
  }

  lemma TokenIsWord(buf: string, s: nat)
    requires s <= |buf| && GetToken(buf, s).kind == 'a'
    ensures IsWord(buf, GetToken(buf, s).span)
  {
    WordEndOk(buf, SkipSpace(buf, s));
  }

  // The cursor moves past white space; is the next character one of toks?
  function Peek(buf: string, s: nat, toks: set<char>): (r: (bool, nat))
    requires s <= |buf|
    ensures s <= r.1 <= |buf| && r.1 == SkipSpace(buf, s)
    ensures r.0 <==> r.1 < |buf| && buf[r.1] in toks
  {
    var t := SkipSpace(buf, s);
    (t < |buf| && buf[t] in toks, t)
  }

  // The loops of peek and gettoken.
  method SkipLoop(buf: string, s: nat) returns (r: nat)
    requires s <= |buf|
    ensures r == SkipSpace(buf, s)
    ensures (forall k :: s <= k < r ==> IsSpace(buf[k])) && (r < |buf| ==> !IsSpace(buf[r]))
  {
    r := s;
    while r < |buf| && IsSpace(buf[r])
      invariant s <= r <= |buf| && SkipSpace(buf, r) == SkipSpace(buf, s)
      invariant forall k :: s <= k < r ==> IsSpace(buf[k])
    {
      r := r + 1;
    }
  }

  method WordLoop(buf: string, s: nat) returns (r: nat)
    requires s <= |buf|
    ensures r == WordEnd(buf, s)
    ensures (forall k :: s <= k < r ==> IsWordChar(buf[k])) && (r < |buf| ==> !IsWordChar(buf[r]))
  {
    r := s;
    while r < |buf| && IsWordChar(buf[r])
      invariant s <= r <= |buf| && WordEnd(buf, r) == WordEnd(buf, s)
      invariant forall k :: s <= k < r ==> IsWordChar(buf[k])
    {
      r := r + 1;
    }
  }

  // --- the parser -------------------------------------------------------------------------------

  function Wrap(cmd: Cmd<Span>, redirs: seq<Redirection>): Cmd<Span> {
    if redirs == [] then cmd
    else var n := |redirs| - 1; Redir(Wrap(cmd, redirs[..n]), redirs[n].file, redirs[n].mode)
  }

  function ParseRedirs(buf: string, s: nat, redirs: seq<Redirection>): (r: Result<seq<Redirection>>)
    requires s <= |buf|
    ensures r.Ok? ==> s <= r.next <= |buf|
    decreases |buf| - s
  {
    var (more, t) := Peek(buf, s, {'<', '>'});
    if !more then Ok(redirs, t)
    else
      var tok := GetToken(buf, t);
      var file := GetToken(buf, tok.next);
      if file.kind != 'a' then Panic
      else ParseRedirs(buf, file.next, redirs + [Redirection(file.span, if tok.kind == '<' then Input else Output)])
  }

  function ParseArgs(buf: string, s: nat, argv: seq<Span>, redirs: seq<Redirection>): (r: Result<Cmd<Span>>)
    requires s <= |buf|
    ensures r.Ok? ==> s <= r.next <= |buf|
    decreases |buf| - s
  {
    var (stop, t) := Peek(buf, s, {'|', ')', '&', ';'});
    if stop then Ok(Wrap(Exec(argv), redirs), t)
    else
      var tok := GetToken(buf, t);
      if tok.kind == NUL then Ok(Wrap(Exec(argv), redirs), tok.next)
      else if tok.kind != 'a' || |argv| + 1 >= MAXARGS then Panic
      else
        match ParseRedirs(buf, tok.next, redirs)
        case Panic => Panic
        case Ok(redirs', u) => ParseArgs(buf, u, argv + [tok.span], redirs')
  }

  function ParseExec(buf: string, s: nat): (r: Result<Cmd<Span>>)
    requires s <= |buf|
    ensures r.Ok? ==> s <= r.next <= |buf|
    decreases |buf| - s, 1
  {
    var (block, t) := Peek(buf, s, {'('});
    if block then ParseBlock(buf, t)
    else
      match ParseRedirs(buf, t, [])
      case Panic => Panic
      case Ok(redirs, u) => ParseArgs(buf, u, [], redirs)
  }

  function ParseBlock(buf: string, s: nat): (r: Result<Cmd<Span>>)
    requires s < |buf| && buf[s] == '('
    ensures r.Ok? ==> s <= r.next <= |buf|
    decreases |buf| - s, 0
  {
    match ParseLine(buf, GetToken(buf, s).next)
    case Panic => Panic
    case Ok(cmd, t) =>
      var (closed, u) := Peek(buf, t, {')'});
      if !closed then Panic
      else
        match ParseRedirs(buf, GetToken(buf, u).next, [])
        case Panic => Panic
        case Ok(redirs, v) => Ok(Wrap(cmd, redirs), v)
  }

  function ParsePipe(buf: string, s: nat): (r: Result<Cmd<Span>>)
    requires s <= |buf|
    ensures r.Ok? ==> s <= r.next <= |buf|
    decreases |buf| - s, 2
  {
    match ParseExec(buf, s)
    case Panic => Panic
    case Ok(cmd, t) =>
      var (more, u) := Peek(buf, t, {'|'});
      if !more then Ok(cmd, u)
      else
        match ParsePipe(buf, GetToken(buf, u).next)
        case Panic => Panic
        case Ok(right, v) => Ok(Pipe(cmd, right), v)
  }

  function Backs(buf: string, s: nat, cmd: Cmd<Span>): (r: (Cmd<Span>, nat))
    requires s <= |buf|
    ensures s <= r.1 <= |buf|
    decreases |buf| - s
  {
    var (more, t) := Peek(buf, s, {'&'});
    if more then Backs(buf, GetToken(buf, t).next, Back(cmd)) else (cmd, t)
  }

  function ParseLine(buf: string, s: nat): (r: Result<Cmd<Span>>)
    requires s <= |buf|
    ensures r.Ok? ==> s <= r.next <= |buf|
    decreases |buf| - s, 3
  {
    match ParsePipe(buf, s)
    case Panic => Panic
    case Ok(first, t) =>
      var (cmd, u) := Backs(buf, t, first);
      var (more, v) := Peek(buf, u, {';'});
      if !more then Ok(cmd, v)
      else
        match ParseLine(buf, GetToken(buf, v).next)
        case Panic => Panic
        case Ok(right, w) => Ok(List(cmd, right), w)
  }

  // parsecmd before nulterminate: anything left over is an error.
  function ParseCmd(buf: string): Result<Cmd<Span>> {
    match ParseLine(buf, 0)
    case Panic => Panic
    case Ok(cmd, t) => if SkipSpace(buf, t) == |buf| then Ok(cmd, |buf|) else Panic
  }

  // --- the words of a parsed line --------------------------------------------------------------

  ghost predicate ArgsOk(buf: string, argv: seq<Span>) {
    forall i :: 0 <= i < |argv| ==> IsWord(buf, argv[i])
  }

  ghost predicate FilesOk(buf: string, redirs: seq<Redirection>) {
    forall i :: 0 <= i < |redirs| ==> IsWord(buf, redirs[i].file)
  }

  // Every string of the tree is a whole word of the command line, and argv has room for its final 0.
  ghost predicate WordsOk(buf: string, cmd: Cmd<Span>) {
    match cmd
    case Exec(argv) => |argv| < MAXARGS && ArgsOk(buf, argv)
    case Redir(c, file, _) => WordsOk(buf, c) && IsWord(buf, file)
    case Pipe(l, r) => WordsOk(buf, l) && WordsOk(buf, r)
    case List(l, r) => WordsOk(buf, l) && WordsOk(buf, r)
    case Back(c) => WordsOk(buf, c)
  }

  lemma {:induction false} WrapWords(buf: string, cmd: Cmd<Span>, redirs: seq<Redirection>)
    requires WordsOk(buf, cmd) && FilesOk(buf, redirs)
    ensures WordsOk(buf, Wrap(cmd, redirs))
  {
    if redirs != [] {
      WrapWords(buf, cmd, redirs[..|redirs| - 1]);
    }
  }

  lemma {:induction false} RedirsWords(buf: string, s: nat, redirs: seq<Redirection>)
    requires s <= |buf| && FilesOk(buf, redirs) && ParseRedirs(buf, s, redirs).Ok?
    ensures FilesOk(buf, ParseRedirs(buf, s, redirs).value)
    decreases |buf| - s
  {
    var (more, t) := Peek(buf, s, {'<', '>'});
    if more {
      var tok := GetToken(buf, t);
      var file := GetToken(buf, tok.next);
      TokenIsWord(buf, tok.next);
      RedirsWords(buf, file.next, redirs + [Redirection(file.span, if tok.kind == '<' then Input else Output)]);
    }
  }

  lemma {:induction false} ArgsWords(buf: string, s: nat, argv: seq<Span>, redirs: seq<Redirection>)
    requires s <= |buf| && |argv| < MAXARGS && ArgsOk(buf, argv) && FilesOk(buf, redirs) && ParseArgs(buf, s, argv, redirs).Ok?
    ensures WordsOk(buf, ParseArgs(buf, s, argv, redirs).value)
    decreases |buf| - s
  {
    WrapWords(buf, Exec(argv), redirs);
    var (stop, t) := Peek(buf, s, {'|', ')', '&', ';'});
    var tok := GetToken(buf, t);
    if !stop && tok.kind != NUL {
      TokenIsWord(buf, t);
      RedirsWords(buf, tok.next, redirs);
      var more := ParseRedirs(buf, tok.next, redirs);
      ArgsWords(buf, more.next, argv + [tok.span], more.value);
    }
  }

  lemma {:induction false} ExecWords(buf: string, s: nat)
    requires s <= |buf| && ParseExec(buf, s).Ok?
    ensures WordsOk(buf, ParseExec(buf, s).value)
    decreases |buf| - s, 1
  {
    var (block, t) := Peek(buf, s, {'('});
    if block {
      BlockWords(buf, t);
    } else {
      RedirsWords(buf, t, []);
      var redirs := ParseRedirs(buf, t, []);
      ArgsWords(buf, redirs.next, [], redirs.value);
    }
  }

  lemma {:induction false} BlockWords(buf: string, s: nat)
    requires s < |buf| && buf[s] == '(' && ParseBlock(buf, s).Ok?
    ensures WordsOk(buf, ParseBlock(buf, s).value)
    decreases |buf| - s, 0
  {
    var inner := GetToken(buf, s).next;
    LineWords(buf, inner);
    var line := ParseLine(buf, inner);
    var after := GetToken(buf, Peek(buf, line.next, {')'}).1).next;
    RedirsWords(buf, after, []);
    WrapWords(buf, line.value, ParseRedirs(buf, after, []).value);
  }

  lemma {:induction false} PipeWords(buf: string, s: nat)
    requires s <= |buf| && ParsePipe(buf, s).Ok?
    ensures WordsOk(buf, ParsePipe(buf, s).value)
    decreases |buf| - s, 2
  {
    ExecWords(buf, s);
    var (more, u) := Peek(buf, ParseExec(buf, s).next, {'|'});
    if more {
      PipeWords(buf, GetToken(buf, u).next);
    }
  }

  lemma {:induction false} BacksWords(buf: string, s: nat, cmd: Cmd<Span>)
    requires s <= |buf| && WordsOk(buf, cmd)
    ensures WordsOk(buf, Backs(buf, s, cmd).0)
    decreases |buf| - s
  {
    var (more, t) := Peek(buf, s, {'&'});
    if more {
      BacksWords(buf, GetToken(buf, t).next, Back(cmd));
    }
  }

  lemma {:induction false} LineWords(buf: string, s: nat)
    requires s <= |buf| && ParseLine(buf, s).Ok?
    ensures WordsOk(buf, ParseLine(buf, s).value)
    decreases |buf| - s, 3
  {
    PipeWords(buf, s);
    var first := ParsePipe(buf, s);
    BacksWords(buf, first.next, first.value);
    var (more, v) := Peek(buf, Backs(buf, first.next, first.value).1, {';'});
    if more {
      LineWords(buf, GetToken(buf, v).next);
    }
  }

  // --- nulterminate --------------------------------------------------------------------------

  // The positions nulterminate writes to.
  ghost function Ends(cmd: Cmd<Span>): set<nat> {
    match cmd
    case Exec(argv) => EndsOf(argv)
    case Redir(c, file, _) => Ends(c) + {file.eq}
    case Pipe(l, r) => Ends(l) + Ends(r)
    case List(l, r) => Ends(l) + Ends(r)
    case Back(c) => Ends(c)
  }

  ghost function EndsOf(argv: seq<Span>): set<nat> {
    set i | 0 <= i < |argv| :: argv[i].eq
  }

  ghost predicate InRange(cmd: Cmd<Span>, n: nat) {
    forall e :: e in Ends(cmd) ==> e < n
  }

  method NulTerminate(a: array<char>, cmd: Cmd<Span>)
    requires InRange(cmd, a.Length)
    modifies a
    ensures forall k :: 0 <= k < a.Length ==> a[k] == if k in Ends(cmd) then NUL else old(a[k])
    decreases cmd
  {
    match cmd
    case Exec(argv) =>
      for i := 0 to |argv|
        invariant forall k :: 0 <= k < a.Length ==> a[k] == if k in EndsOf(argv[..i]) then NUL else old(a[k])
      {
        assert argv[i].eq in Ends(cmd);
        assert argv[..i + 1][i] == argv[i] && argv[..i + 1][..i] == argv[..i];
        a[argv[i].eq] := NUL;
      }
      assert argv[..|argv|] == argv;
    case Redir(c, file, _) =>
      assert Ends(c) <= Ends(cmd) && file.eq in Ends(cmd);
      NulTerminate(a, c);
      a[file.eq] := NUL;
    case Pipe(l, r) =>
      assert Ends(l) <= Ends(cmd) && Ends(r) <= Ends(cmd);
      NulTerminate(a, l);
      NulTerminate(a, r);
    case List(l, r) =>
      assert Ends(l) <= Ends(cmd) && Ends(r) <= Ends(cmd);
      NulTerminate(a, l);
      NulTerminate(a, r);
    case Back(c) =>
      assert Ends(c) == Ends(cmd);
      NulTerminate(a, c);
  }

  // The C string that starts at q.
  function CString(a: seq<char>, q: nat): string
    decreases |a| - q
  {
    if q < |a| && a[q] != NUL then [a[q]] + CString(a, q + 1) else []
  }

  function Map<V, W>(f: V -> W, cmd: Cmd<V>): Cmd<W> {
    match cmd
    case Exec(argv) => Exec(seq(|argv|, i requires 0 <= i < |argv| => f(argv[i])))
    case Redir(c, file, mode) => Redir(Map(f, c), f(file), mode)
    case Pipe(l, r) => Pipe(Map(f, l), Map(f, r))
    case List(l, r) => List(Map(f, l), Map(f, r))
    case Back(c) => Back(Map(f, c))
  }

  // The tree with the text of its tokens.
  function TextOf(buf: string, w: Span): string {
    if w.q <= w.eq <= |buf| then buf[w.q..w.eq] else []
  }

  function Text(buf: string, cmd: Cmd<Span>): Cmd<string> {
    Map(w => TextOf(buf, w), cmd)
  }

  // The tree as runcmd sees it: every string starts at its pointer and ends at a NUL.
  function Strings(a: seq<char>, cmd: Cmd<Span>): Cmd<string> {
    Map((w: Span) => CString(a, w.q), cmd)
  }

  // The line is in a, with its final NUL, except that some word ends have become NUL.
  ghost predicate Terminated(buf: string, a: seq<char>, ends: set<nat>) {
    && |a| == |buf| + 1 && a[|buf|] == NUL
    && (forall e :: e in ends && e < |buf| ==> !IsWordChar(buf[e]))
    && forall k :: 0 <= k < |buf| ==> a[k] == if k in ends then NUL else buf[k]
  }

  lemma {:induction false} WordString(buf: string, a: seq<char>, ends: set<nat>, w: Span, q: nat)
    requires NUL !in buf && Terminated(buf, a, ends) && IsWord(buf, w) && w.eq in ends && w.q <= q <= w.eq
    ensures CString(a, q) == buf[q..w.eq]
    decreases w.eq - q
  {
    if q < w.eq {
      WordString(buf, a, ends, w, q + 1);
      assert buf[q..w.eq] == [buf[q]] + buf[q + 1..w.eq];
    }
  }

  lemma {:induction false} SameStrings(buf: string, a: seq<char>, ends: set<nat>, cmd: Cmd<Span>)
    requires NUL !in buf && Terminated(buf, a, ends) && WordsOk(buf, cmd) && Ends(cmd) <= ends
    ensures Strings(a, cmd) == Text(buf, cmd)
  {
    match cmd
    case Exec(argv) =>
      forall i | 0 <= i < |argv| ensures CString(a, argv[i].q) == TextOf(buf, argv[i]) {
        assert argv[i].eq in Ends(cmd);
        WordString(buf, a, ends, argv[i], argv[i].q);
      }
    case Redir(c, file, _) =>
      SameStrings(buf, a, ends, c);
      assert file.eq in Ends(cmd);
      WordString(buf, a, ends, file, file.q);
    case Pipe(l, r) =>
      SameStrings(buf, a, ends, l);
      SameStrings(buf, a, ends, r);
    case List(l, r) =>
      SameStrings(buf, a, ends, l);
      SameStrings(buf, a, ends, r);
    case Back(c) =>
      SameStrings(buf, a, ends, c);
  }

  // The ends of the words of a tree lie on no word character.
  lemma {:induction false} EndsOutsideWords(buf: string, cmd: Cmd<Span>, e: nat)
    requires WordsOk(buf, cmd) && e in Ends(cmd)
    ensures e <= |buf| && (e < |buf| ==> !IsWordChar(buf[e]))
  {
    match cmd
    case Exec(argv) =>
    case Redir(c, file, _) =>
      if e != file.eq { EndsOutsideWords(buf, c, e); }
    case Pipe(l, r) =>
      if e in Ends(l) { EndsOutsideWords(buf, l, e); } else { EndsOutsideWords(buf, r, e); }
    case List(l, r) =>
      if e in Ends(l) { EndsOutsideWords(buf, l, e); } else { EndsOutsideWords(buf, r, e); }
    case Back(c) =>
      EndsOutsideWords(buf, c, e);
  }

  /** parsecmd: the strings of the tree it returns are the words of the line. */
  method ParseCommand(a: array<char>, ghost buf: string) returns (r: Result<Cmd<Span>>)
    requires a.Length == |buf| + 1 && a[..] == buf + [NUL] && NUL !in buf
    modifies a
    ensures r == ParseCmd(buf)
    ensures r.Ok? ==> Strings(a[..], r.value) == Text(buf, r.value)
    ensures r.Panic? ==> a[..] == old(a[..])
  {
    var line := a[..a.Length - 1];
    assert line == buf;
    r := ParseCmd(line);
    if r.Ok? {
      LineWords(buf, 0);
      forall e | e in Ends(r.value) ensures e <= |buf| && (e < |buf| ==> !IsWordChar(buf[e])) {
        EndsOutsideWords(buf, r.value, e);
      }
      NulTerminate(a, r.value);
      assert Terminated(buf, a[..], Ends(r.value));
      SameStrings(buf, a[..], Ends(r.value), r.value);
    }
  }
}
