/** The shell's parser as code. The input position `*ps` is passed in and returned. Each
  procedure takes the tokens of the line, of which the i-th is next, and returns which
  token is next after it: the tokens between make up the command it returns, and if it
  refuses, no command stands there. These ghost arguments have no influence on what is
  computed.
 */
module ShellCode {
  import opened Common
  import opened ShellModel
  import opened ShellPrint
  import opened ShellGrammar
  import opened ShellRead

  method Skip(b: string, s: nat) returns (r: nat)
    requires s <= |b|
    ensures Gap(b, s, r)
  {
    r := s;
    while r < |b| && Blank(b[r])
      invariant s <= r <= |b| && forall i :: s <= i < r ==> Blank(b[i])
    {
      r := r + 1;
    }
  }

  method GetToken(b: string, s: nat) returns (t: Token)
    requires s <= |b| && Line(b)
    ensures TokenAt(b, s, t) && (t.kind != NUL ==> s < t.next)
  {
    var q := Skip(b, s);
    var e, kind := q, CharAt(b, q);
    if q < |b| {
      if b[q] == '|' || b[q] == '(' || b[q] == ')' || b[q] == ';' || b[q] == '&' || b[q] == '<' {
        e := q + 1;
      } else if b[q] == '>' {
        e := q + 1;
        if CharAt(b, e) == '>' {
          kind := '+';
          e := e + 1;
        }
      } else {
        kind := 'a';
        while e < |b| && !Blank(b[e]) && !Symbol(b[e])
          invariant q <= e <= |b| && forall i :: q <= i < e ==> WordChar(b[i])
        {
          e := e + 1;
        }
      }
    }
    var next := Skip(b, e);
    t := Token(kind, q, e, next);
  }

  /** `if(peek(ps, es, "c")) gettoken(ps, es, 0, 0)`. */
  method TakeSymbol(b: string, s: nat, c: char, ghost ts: seq<Token>, ghost i: nat) returns (taken: bool, pos: nat)
    requires s <= |b| && Line(b) && At(b, ts, i, s) && Symbol(c) && c != '<' && c != '>'
    ensures s <= pos <= |b| && (taken ==> s < pos)
    ensures (taken <==> Kind(ts, i, c)) && At(b, ts, if taken then i + 1 else i, pos)
  {
    pos := Skip(b, s);
    SkipTo(b, ts, i, s, pos);
    Peek(b, ts, i, pos);
    taken := CharAt(b, pos) == c;
    if taken {
      var t := GetToken(b, pos);
      Took(b, ts, i, pos, t);
      pos := t.next;
    }
  }

  // ------------------------------------------------------------- simple commands

  /** One turn of parseredirs' loop: the next redirection, if there is one. */
  method ParseRedir(b: string, s: nat, ghost ts: seq<Token>, ghost i: nat) returns (r: Result<Option<Redirect<Tok>>>)
    requires s <= |b| && Line(b) && At(b, ts, i, s)
    ensures r.Ok? ==> s <= r.pos <= |b| && (r.value.Some? ==> s < r.pos)
    ensures r.Ok? && r.value.None? ==> At(b, ts, i, r.pos) && NoArrow(ts, i)
    ensures r.Ok? && r.value.Some? ==>
              && i + 1 < |ts| && IsArrow(ts[i].kind) && Kind(ts, i + 1, 'a') && At(b, ts, i + 2, r.pos)
              && r.value.value == RedirectOf(ts[i], ts[i + 1]) && DirectedBy(b, r.value.value)
    ensures r.Err? ==> Stuck(ts, i)
  {
    var pos := Skip(b, s);
    SkipTo(b, ts, i, s, pos);
    Peek(b, ts, i, pos);
    if CharAt(b, pos) != '<' && CharAt(b, pos) != '>' {
      return Ok(None, pos);
    }
    var op := GetToken(b, pos);
    Took(b, ts, i, pos, op);
    var f := GetToken(b, op.next);
    Took(b, ts, i + 1, op.next, f);
    TokenInk(b, pos, op);
    InkAt(b, op.next, f);
    if f.kind != 'a' {
      return Err(MissingFile);
    }
    return Ok(Some(Redirect(Tok(f.q, f.eq), op.kind != '<')), f.next);
  }

  /** parseredirs: `rs` is what was read, also before an error. */
  method ParseRedirs(b: string, s: nat, ghost ts: seq<Token>, ghost i: nat)
    returns (r: Result<seq<Redirect<Tok>>>, ghost j: nat, ghost rs: seq<Redirect<Tok>>)
    requires s <= |b| && Line(b) && At(b, ts, i, s)
    ensures ReadItems(ts, i, j, Simple([], rs)) && forall k :: 0 <= k < |rs| ==> DirectedBy(b, rs[k])
    ensures r.Ok? ==> r.value == rs && s <= r.pos <= |b| && At(b, ts, j, r.pos) && NoArrow(ts, j)
    ensures r.Err? ==> Stuck(ts, j)
  {
    var toks, pos := [], s;
    j := i;
    NothingRead(ts, i);
    while true
      invariant s <= pos <= |b| && ReadItems(ts, i, j, Simple([], toks)) && At(b, ts, j, pos)
      invariant forall k :: 0 <= k < |toks| ==> DirectedBy(b, toks[k])
      decreases |b| - pos
    {
      var t := ParseRedir(b, pos, ts, j);
      if t.Err? {
        return Err(t.error), j, toks;
      }
      if t.value.None? {
        return Ok(toks, t.pos), j, toks;
      }
      RedirNext(ts, i, j, Simple([], toks));
      toks, pos, j := toks + [t.value.value], t.pos, j + 2;
    }
  }

  datatype Arg = Arg(t: Tok, rs: seq<Redirect<Tok>>)

  /** One turn of parseexec's loop: the next word with the redirections after it. */
  method ParseArg(b: string, s: nat, argc: nat, ghost ts: seq<Token>, ghost i: nat)
    returns (r: Result<Option<Arg>>, ghost j: nat, ghost rs: seq<Redirect<Tok>>)
    requires s <= |b| && Line(b) && At(b, ts, i, s) && NoArrow(ts, i)
    ensures r.Ok? ==> s <= r.pos <= |b|
    ensures r.Ok? && r.value.None? ==> AfterExec(ts, i) && At(b, ts, i, r.pos)
    ensures r.Ok? && r.value.Some? ==>
              && s < r.pos && argc + 1 < MAXARGS && Kind(ts, i, 'a') && r.value.value == Arg(WordOf(ts[i]), rs)
              && ReadItems(ts, i + 1, j, Simple([], rs)) && At(b, ts, j, r.pos) && NoArrow(ts, j)
    ensures r.Err? ==>
              || Stuck(ts, i) || (Kind(ts, i, 'a') && argc + 1 >= MAXARGS)
              || (Kind(ts, i, 'a') && ReadItems(ts, i + 1, j, Simple([], rs)) && Stuck(ts, j))
  {
    var pos := Skip(b, s);
    SkipTo(b, ts, i, s, pos);
    Peek(b, ts, i, pos);
    j, rs := i, [];
    if Stops(CharAt(b, pos)) {
      return Ok(None, pos), j, rs;
    }
    var t := GetToken(b, pos);
    Took(b, ts, i, pos, t);
    if t.kind == NUL {
      return Ok(None, t.next), j, rs;
    }
    if t.kind != 'a' {
      return Err(Syntax), j, rs;
    }
    if argc + 1 >= MAXARGS {
      return Err(TooManyArgs), j, rs;
    }
    var x;
    x, j, rs := ParseRedirs(b, t.next, ts, i + 1);
    if x.Err? {
      return Err(x.error), j, rs;
    }
    return Ok(Some(Arg(Tok(t.q, t.eq), x.value)), x.pos), j, rs;
  }

  lemma ArgRefused(ts: seq<Token>, i: nat, j: nat, x: Simple, next: nat, rs: seq<Redirect<Tok>>)
    requires !Kind(ts, i, '(') && ReadItems(ts, i, j, x)
    requires || Stuck(ts, j) || (Kind(ts, j, 'a') && |x.args| + 1 >= MAXARGS)
             || (Kind(ts, j, 'a') && ReadItems(ts, j + 1, next, Simple([], rs)) && Stuck(ts, next))
    ensures NoExec(ts, i)
  {
    if Kind(ts, j, 'a') && |x.args| + 1 < MAXARGS {
      ArgNext(ts, i, j, x, next, rs);
      SimpleNotFound(ts, i, next, Simple(x.args + [WordOf(ts[j])], x.rs + rs));
    } else {
      SimpleNotFound(ts, i, j, x);
    }
  }

  /** parseexec's loop, from token i1 on. */
  method ParseArgs(b: string, s: nat, first: seq<Redirect<Tok>>, ghost ts: seq<Token>, ghost i: nat, ghost i1: nat)
    returns (r: Result<Simple>, ghost j: nat)
    requires s <= |b| && Line(b) && At(b, ts, i1, s) && NoArrow(ts, i1) && !Kind(ts, i, '(')
    requires ReadItems(ts, i, i1, Simple([], first))
    ensures r.Ok? ==> s <= r.pos <= |b| && |r.value.args| < MAXARGS
    ensures r.Ok? ==> ReadItems(ts, i, j, r.value) && At(b, ts, j, r.pos) && AfterExec(ts, j)
    ensures r.Err? ==> NoExec(ts, i)
  {
    var x, pos := Simple([], first), s;
    j := i1;
    while true
      invariant s <= pos <= |b| && |x.args| < MAXARGS
      invariant ReadItems(ts, i, j, x) && At(b, ts, j, pos) && NoArrow(ts, j)
      decreases |b| - pos
    {
      var a, next, rs := ParseArg(b, pos, |x.args|, ts, j);
      if a.Err? {
        ArgRefused(ts, i, j, x, next, rs);
        return Err(a.error), j;
      }
      if a.value.None? {
        return Ok(x, a.pos), j;
      }
      ArgNext(ts, i, j, x, next, rs);
      x, pos, j := Simple(x.args + [a.value.value.t], x.rs + a.value.value.rs), a.pos, next;
    }
  }

  // ------------------------------------------------------------------ the parser

  method ParseExec(b: string, s: nat, ghost ts: seq<Token>, ghost i: nat) returns (r: Result<Cmd<Tok>>, ghost j: nat)
    requires s <= |b| && Line(b) && At(b, ts, i, s)
    ensures r.Ok? ==> s <= r.pos <= |b|
    ensures if r.Ok? then FoundExec(ts, i, j, r.value) && At(b, ts, j, r.pos) else NoExec(ts, i)
    decreases |b| - s, 1
  {
    var block, inner := TakeSymbol(b, s, '(', ts, i);
    if block {
      r, j := ParseBlock(b, inner, ts, i);
      return;
    }
    var first, i1, rs := ParseRedirs(b, inner, ts, i);
    if first.Err? {
      SimpleNotFound(ts, i, i1, Simple([], rs));
      return Err(first.error), i1;
    }
    var x;
    x, j := ParseArgs(b, first.pos, first.value, ts, i, i1);
    if x.Err? {
      return Err(x.error), j;
    }
    SimpleFound(ts, i, j, x.value);
    return Ok(Wrap(Exec(x.value.args), x.value.rs), x.pos), j;
  }

  /** parseblock, after its opening parenthesis. */
  method ParseBlock(b: string, s: nat, ghost ts: seq<Token>, ghost i: nat) returns (r: Result<Cmd<Tok>>, ghost j: nat)
    requires s <= |b| && Line(b) && Kind(ts, i, '(') && At(b, ts, i + 1, s)
    ensures r.Ok? ==> s <= r.pos <= |b|
    ensures if r.Ok? then FoundExec(ts, i, j, r.value) && At(b, ts, j, r.pos) else NoExec(ts, i)
    decreases |b| - s, 5
  {
    var l, m := ParseLine(b, s, ts, i + 1);
    if l.Err? {
      NoInnerLine(ts, i);
      return l, m;
    }
    var close, pos := TakeSymbol(b, l.pos, ')', ts, m);
    if !close {
      BlockNotFound(ts, i, m, l.value, m, []);
      return Err(MissingParen), m;
    }
    var x, k, rs := ParseRedirs(b, pos, ts, m + 1);
    if x.Err? {
      BlockNotFound(ts, i, m, l.value, k, rs);
      return Err(x.error), k;
    }
    BlockFound(ts, i, m, l.value, k, rs);
    return Ok(Wrap(l.value, x.value), x.pos), k;
  }

  method ParsePipe(b: string, s: nat, ghost ts: seq<Token>, ghost i: nat) returns (r: Result<Cmd<Tok>>, ghost j: nat)
    requires s <= |b| && Line(b) && At(b, ts, i, s)
    ensures r.Ok? ==> s <= r.pos <= |b|
    ensures if r.Ok? then FoundPipe(ts, i, j, r.value) && At(b, ts, j, r.pos) else NoPipe(ts, i)
    decreases |b| - s, 2
  {
    var l, m := ParseExec(b, s, ts, i);
    if l.Err? {
      NoHead(ts, i);
      return l, m;
    }
    var bar, pos := TakeSymbol(b, l.pos, '|', ts, m);
    if !bar {
      PipeFound(ts, i, m, l.value);
      return Ok(l.value, pos), m;
    }
    var q;
    q, j := ParsePipe(b, pos, ts, m + 1);
    if q.Err? {
      PipeNotFound(ts, i, m, l.value);
      return q, j;
    }
    PipeLonger(ts, i, m, l.value, j, q.value);
    return Ok(Pipe(l.value, q.value), q.pos), j;
  }

  /** parseline's loop over '&'. */
  method ParseBacks(b: string, s: nat, c: Cmd<Tok>, ghost ts: seq<Token>, ghost i: nat)
    returns (d: Cmd<Tok>, pos: nat, ghost j: nat)
    requires s <= |b| && Line(b) && At(b, ts, i, s)
    ensures s <= pos <= |b| && At(b, ts, j, pos)
    ensures i <= j <= |ts| && (forall k :: i <= k < j ==> Kind(ts, k, '&')) && !Kind(ts, j, '&')
    ensures d == Backed(c, j - i)
  {
    d, pos, j := c, s, i;
    while true
      invariant s <= pos <= |b| && At(b, ts, j, pos)
      invariant i <= j <= |ts| && (forall k :: i <= k < j ==> Kind(ts, k, '&')) && d == Backed(c, j - i)
      decreases |b| - pos
    {
      var amp;
      amp, pos := TakeSymbol(b, pos, '&', ts, j);
      if !amp {
        return;
      }
      d, j := Back(d), j + 1;
    }
  }

  method ParseLine(b: string, s: nat, ghost ts: seq<Token>, ghost i: nat) returns (r: Result<Cmd<Tok>>, ghost j: nat)
    requires s <= |b| && Line(b) && At(b, ts, i, s)
    ensures r.Ok? ==> s <= r.pos <= |b|
    ensures if r.Ok? then FoundLine(ts, i, j, r.value) && At(b, ts, j, r.pos) else NoLine(ts, i)
    decreases |b| - s, 3
  {
    var p, n := ParsePipe(b, s, ts, i);
    if p.Err? {
      NoHead(ts, i);
      return p, n;
    }
    var front, at, m := ParseBacks(b, p.pos, p.value, ts, n);
    FrontFound(ts, i, n, p.value, m);
    var semi, pos := TakeSymbol(b, at, ';', ts, m);
    if !semi {
      LineFound(ts, i, m, front);
      return Ok(front, pos), m;
    }
    var q;
    q, j := ParseLine(b, pos, ts, m + 1);
    if q.Err? {
      LineNotFound(ts, i, m, front);
      return q, j;
    }
    LineLonger(ts, i, m, front, j, q.value);
    return Ok(List(front, q.value), q.pos), j;
  }

  /** What parsecmd makes of what parseline read: the line is that command if no token is
      left, and no command at all if one is. */
  lemma Leftovers(ts: seq<Token>, j: nat, c: Cmd<Tok>)
    requires FoundLine(ts, 0, j, c) && j <= |ts|
    ensures if j == |ts| then IsLine(ts, 0, |ts|, c) else forall c' :: !IsLine(ts, 0, |ts|, c')
  {
    assert IsLine(ts, 0, j, c);
    if j < |ts| {
      forall c' ensures !IsLine(ts, 0, |ts|, c') {
        if IsLine(ts, 0, |ts|, c') && AfterLine(ts, j) {
          LineOnce(ts, 0, j, c, |ts|, c');
        }
      }
    }
  }

  /** A line is parsed to the command its tokens make up, and refused exactly if they make
      up none. The words of the command are pieces of the line, its redirections go the way
      of their arrows, and the text of a command is parsed to that command. */
  method ParseCmd(b: string) returns (r: Result<Cmd<Tok>>, ghost ts: seq<Token>)
    requires Line(b)
    ensures Lexed(b, ts) && Here(b, ts, 0, 0)
    ensures if r.Ok? then IsLine(ts, 0, |ts|, r.value) && Cut(b, r.value) else forall c :: !IsLine(ts, 0, |ts|, c)
    ensures r.Ok? ==> Directed(b, r.value)
    ensures forall t :: Good(t) && b == PrintLine(t) ==> r.Ok? && Text(b, r.value) == t
  {
    ts := SomeTokens(b, 0);
    var l, j := ParseLine(b, 0, ts, 0);
    if l.Ok? {
      Leftovers(ts, j, l.value);
      var s := Skip(b, l.pos);
      SkipTo(b, ts, j, l.pos, s);
      Peek(b, ts, j, s);
      l := if s != |b| then Err(Syntax) else l;
    } else {
      assert AfterLine(ts, |ts|);
    }
    r := l;
    Consequences(b, ts, r);
  }

  lemma Consequences(b: string, ts: seq<Token>, r: Result<Cmd<Tok>>)
    requires Line(b) && At(b, ts, 0, 0)
    requires if r.Ok? then IsLine(ts, 0, |ts|, r.value) else forall c :: !IsLine(ts, 0, |ts|, c)
    ensures Lexed(b, ts) && Here(b, ts, 0, 0) && (r.Ok? ==> Cut(b, r.value) && Directed(b, r.value))
    ensures forall t :: Good(t) && b == PrintLine(t) ==> r.Ok? && Text(b, r.value) == t
  {
    assert Here(b, ts, 0, 0);
    LexedWords(b, ts);
    if r.Ok? {
      LineCut(b, ts, 0, |ts|, r.value);
      forall k | 0 <= k < |ts| ensures Inked(b, ts, k) {
        LexedInk(b, ts, k);
      }
      LineDirected(b, ts, 0, |ts|, r.value);
    }
    forall t | Good(t) && b == PrintLine(t) ensures r.Ok? && Text(b, r.value) == t {
      PrintedMade(t, ts, if r.Ok? then r.value else Exec([]));
    }
  }
}
