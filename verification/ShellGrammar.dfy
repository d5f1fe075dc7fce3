/** The shell's grammar, on the tokens of a line, and that it is unambiguous: what may
  follow a part of a line tells where the part ends.

    line  -> front | front ; line
    front -> pipe | front &
    pipe  -> exec | exec "|" pipe
    exec  -> items | ( line ) redirections
    items -> words and redirections in any order, fewer than MAXARGS words
 */
module ShellGrammar {
  import opened ShellModel

  // ------------------------------------------------------------- tokens of a line

  /** The tokens from the n-th on are found at position s. */
  ghost predicate Here(b: string, ts: seq<Token>, n: nat, s: nat) {
    && n <= |ts| && s <= |b|
    && if n < |ts| then ts[n].kind != NUL && TokenAt(b, s, ts[n]) else Gap(b, s, |b|)
  }

  ghost predicate Linked(b: string, ts: seq<Token>, k: nat)
    requires k < |ts|
  {
    Here(b, ts, k + 1, ts[k].next)
  }

  /** Each token is the one found after the token before, up to the end of the line. */
  ghost predicate Lexed(b: string, ts: seq<Token>) {
    forall k :: 0 <= k < |ts| ==> Linked(b, ts, k)
  }

  lemma GapEnds(b: string, s: nat, q: nat, q': nat)
    requires Gap(b, s, q) && Gap(b, s, q')
    ensures q == q'
  {
  }

  lemma TokenOnce(b: string, s: nat, t: Token, t': Token)
    requires TokenAt(b, s, t) && TokenAt(b, s, t')
    ensures t == t'
  {
    GapEnds(b, s, t.q, t'.q);
    GapEnds(b, t.eq, t.next, t'.next);
  }

  lemma HereOnce(b: string, ts: seq<Token>, ts': seq<Token>, n: nat, s: nat)
    requires Here(b, ts, n, s) && Here(b, ts', n, s)
    ensures (n < |ts| <==> n < |ts'|) && (n < |ts| ==> ts[n] == ts'[n])
  {
    if n < |ts| && n < |ts'| {
      TokenOnce(b, s, ts[n], ts'[n]);
    } else if n < |ts| || n < |ts'| {
      GapEnds(b, s, if n < |ts| then ts[n].q else ts'[n].q, |b|);
    }
  }

  /** A line has one sequence of tokens. */
  lemma {:induction false} LexedOnce(b: string, ts: seq<Token>, ts': seq<Token>, n: nat, s: nat)
    requires Lexed(b, ts) && Lexed(b, ts') && Here(b, ts, n, s) && Here(b, ts', n, s)
    ensures ts[n..] == ts'[n..]
    decreases |ts| - n
  {
    HereOnce(b, ts, ts', n, s);
    if n < |ts| {
      assert Linked(b, ts, n) && Linked(b, ts', n);
      LexedOnce(b, ts, ts', n + 1, ts[n].next);
      assert ts[n..] == [ts[n]] + ts[n + 1..] && ts'[n..] == [ts'[n]] + ts'[n + 1..];
    }
  }

  lemma {:induction false} SomeGap(b: string, s: nat) returns (q: nat)
    requires s <= |b|
    ensures Gap(b, s, q)
    decreases |b| - s
  {
    if s < |b| && Blank(b[s]) {
      q := SomeGap(b, s + 1);
    } else {
      q := s;
    }
  }

  lemma {:induction false} SomeWord(b: string, q: nat, e: nat) returns (t: Tok)
    requires q < e <= |b| && forall i :: q <= i < e ==> WordChar(b[i])
    ensures t.q == q && WordAt(b, t)
    decreases |b| - e
  {
    if e < |b| && WordChar(b[e]) {
      t := SomeWord(b, q, e + 1);
    } else {
      t := Tok(q, e);
    }
  }

  lemma SomeToken(b: string, s: nat) returns (t: Token)
    requires s <= |b| && Line(b)
    ensures TokenAt(b, s, t) && t.next <= |b| && (t.kind == NUL <==> t.q == |b|) && (t.kind != NUL ==> s < t.next)
  {
    var q := SomeGap(b, s);
    var kind, e := NUL, q;
    if q < |b| && Symbol(b[q]) {
      var two := b[q] == '>' && CharAt(b, q + 1) == '>';
      kind, e := if two then '+' else b[q], if two then q + 2 else q + 1;
    } else if q < |b| {
      var w := SomeWord(b, q, q + 1);
      kind, e := 'a', w.eq;
    }
    var next := SomeGap(b, e);
    t := Token(kind, q, e, next);
  }

  /** Every line has tokens. */
  lemma {:induction false} SomeTokens(b: string, s: nat) returns (ts: seq<Token>)
    requires s <= |b| && Line(b)
    ensures Lexed(b, ts) && Here(b, ts, 0, s)
    decreases |b| - s
  {
    var t := SomeToken(b, s);
    if t.kind == NUL {
      ts := [];
    } else {
      var rest := SomeTokens(b, t.next);
      ts := [t] + rest;
      forall k | 0 <= k < |ts| ensures Linked(b, ts, k) {
        assert k > 0 ==> ts[k] == rest[k - 1] && Linked(b, rest, k - 1);
      }
    }
  }

  /** Reading is at s, before the n-th of the line's tokens. The quantifier keeps the
      rest folded. */
  ghost predicate At(b: string, ts: seq<Token>, n: nat, s: nat) {
    n <= |ts| && forall m: nat {:trigger Here(b, ts, m, s)} :: m == n ==> Here(b, ts, m, s) && Lexed(b, ts)
  }

  lemma SkipTo(b: string, ts: seq<Token>, n: nat, s: nat, q: nat)
    requires At(b, ts, n, s) && Gap(b, s, q)
    ensures At(b, ts, n, q)
  {
    assert Here(b, ts, n, s);
    GapEnds(b, s, q, if n < |ts| then ts[n].q else |b|);
  }

  lemma Took(b: string, ts: seq<Token>, n: nat, s: nat, t: Token)
    requires At(b, ts, n, s) && TokenAt(b, s, t)
    ensures if n < |ts| then t == ts[n] && At(b, ts, n + 1, t.next) else t.kind == NUL && At(b, ts, n, t.next)
    ensures n < |ts| ==> t.kind != NUL
  {
    assert Here(b, ts, n, s);
    if n < |ts| {
      TokenOnce(b, s, t, ts[n]);
      assert Linked(b, ts, n);
    } else {
      GapEnds(b, s, t.q, |b|);
    }
  }

  /** What peek tells of the next token. */
  lemma Peek(b: string, ts: seq<Token>, n: nat, s: nat)
    requires At(b, ts, n, s) && Line(b) && !Blank(CharAt(b, s))
    ensures n == |ts| <==> s == |b|
    ensures n < |ts| ==> s < |b| && (IsArrow(ts[n].kind) <==> b[s] == '<' || b[s] == '>')
    ensures n < |ts| && Symbol(b[s]) && b[s] != '>' ==> ts[n].kind == b[s]
    ensures n < |ts| && !Symbol(b[s]) ==> ts[n].kind == 'a'
  {
    assert Here(b, ts, n, s);
    if n < |ts| {
      GapEnds(b, s, s, ts[n].q);
    } else {
      GapEnds(b, s, s, |b|);
    }
  }

  // ------------------------------------------------------------------ the grammar

  predicate IsArrow(c: char) { c == '<' || c == '>' || c == '+' }

  predicate Kind(ts: seq<Token>, n: nat, c: char) { n < |ts| && ts[n].kind == c }

  function WordOf(t: Token): Tok { Tok(t.q, t.eq) }

  /** Words and redirections. */
  ghost predicate Items(ts: seq<Token>, i: nat, j: nat)
    decreases j - i
  {
    && i <= j <= |ts|
    && (i < j ==> if ts[i].kind == 'a' then Items(ts, i + 1, j)
                  else IsArrow(ts[i].kind) && Kind(ts, i + 1, 'a') && i + 2 <= j && Items(ts, i + 2, j))
  }

  ghost function ArgsOf(ts: seq<Token>, i: nat, j: nat): seq<Tok>
    requires Items(ts, i, j)
    decreases j - i
  {
    if i == j then []
    else if ts[i].kind == 'a' then [WordOf(ts[i])] + ArgsOf(ts, i + 1, j)
    else ArgsOf(ts, i + 2, j)
  }

  ghost function RedirsOf(ts: seq<Token>, i: nat, j: nat): seq<Redirect<Tok>>
    requires Items(ts, i, j)
    decreases j - i
  {
    if i == j then []
    else if ts[i].kind == 'a' then RedirsOf(ts, i + 1, j)
    else [Redirect(WordOf(ts[i + 1]), ts[i].kind != '<')] + RedirsOf(ts, i + 2, j)
  }

  ghost predicate IsSimple(ts: seq<Token>, i: nat, j: nat, c: Cmd<Tok>) {
    Items(ts, i, j) && |ArgsOf(ts, i, j)| < MAXARGS && c == Wrap(Exec(ArgsOf(ts, i, j)), RedirsOf(ts, i, j))
  }

  /** ( line ) redirections, the line ending before token m. */
  ghost predicate IsBlock(ts: seq<Token>, i: nat, m: nat, j: nat, d: Cmd<Tok>, c: Cmd<Tok>)
    decreases j - i, 0
  {
    && i + 1 <= m < j <= |ts| && Kind(ts, i, '(') && Kind(ts, m, ')') && IsLine(ts, i + 1, m, d)
    && Items(ts, m + 1, j) && ArgsOf(ts, m + 1, j) == [] && c == Wrap(d, RedirsOf(ts, m + 1, j))
  }

  ghost predicate IsExec(ts: seq<Token>, i: nat, j: nat, c: Cmd<Tok>)
    decreases j - i, 1
  {
    IsSimple(ts, i, j, c) || exists m: nat, d :: i < j && IsBlock(ts, i, m, j, d, c)
  }

  ghost predicate IsPipe(ts: seq<Token>, i: nat, j: nat, c: Cmd<Tok>)
    decreases j - i, 2
  {
    || IsExec(ts, i, j, c)
    || (c.Pipe? &&
        exists m :: i <= m < j && Kind(ts, m, '|') && IsExec(ts, i, m, c.left) && IsPipe(ts, m + 1, j, c.right))
  }

  ghost predicate IsFront(ts: seq<Token>, i: nat, j: nat, c: Cmd<Tok>)
    decreases j - i, 3
  {
    IsPipe(ts, i, j, c) || (c.Back? && i < j && Kind(ts, j - 1, '&') && IsFront(ts, i, j - 1, c.cmd))
  }

  /** Tokens i to j - 1 make up the command c. */
  ghost predicate IsLine(ts: seq<Token>, i: nat, j: nat, c: Cmd<Tok>)
    decreases j - i, 4
  {
    || IsFront(ts, i, j, c)
    || (c.List? &&
        exists m :: i <= m < j && Kind(ts, m, ';') && IsFront(ts, i, m, c.left) && IsLine(ts, m + 1, j, c.right))
  }

  // ------------------------------------------------------------ what may follow

  predicate AfterLine(ts: seq<Token>, j: nat) { j == |ts| || Kind(ts, j, ')') }

  predicate AfterFront(ts: seq<Token>, j: nat) { AfterLine(ts, j) || Kind(ts, j, ';') }

  predicate AfterPipe(ts: seq<Token>, j: nat) { AfterFront(ts, j) || Kind(ts, j, '&') }

  predicate AfterExec(ts: seq<Token>, j: nat) { AfterPipe(ts, j) || Kind(ts, j, '|') }

  lemma {:induction false} ItemsKinds(ts: seq<Token>, i: nat, j: nat, k: nat)
    requires Items(ts, i, j) && i <= k < j
    ensures ts[k].kind == 'a' || IsArrow(ts[k].kind)
    decreases j - i
  {
    if ts[i].kind == 'a' {
      if k > i {
        ItemsKinds(ts, i + 1, j, k);
      }
    } else if k > i + 1 {
      ItemsKinds(ts, i + 2, j, k);
    }
  }

  lemma {:induction false} ItemsChain(ts: seq<Token>, i: nat, k: nat, j: nat)
    requires Items(ts, i, k) && Items(ts, k, j)
    ensures Items(ts, i, j)
    decreases k - i
  {
    if i < k {
      ItemsChain(ts, if ts[i].kind == 'a' then i + 1 else i + 2, k, j);
    }
  }

  lemma ConsAssoc<T>(x: T, s: seq<T>, r: seq<T>)
    ensures [x] + (s + r) == [x] + s + r
  {
  }

  lemma {:induction false} ArgsJoin(ts: seq<Token>, i: nat, k: nat, j: nat)
    requires Items(ts, i, k) && Items(ts, k, j) && Items(ts, i, j)
    ensures ArgsOf(ts, i, j) == ArgsOf(ts, i, k) + ArgsOf(ts, k, j)
    decreases k - i
  {
    if i < k {
      if ts[i].kind == 'a' {
        ArgsJoin(ts, i + 1, k, j);
        ConsAssoc(WordOf(ts[i]), ArgsOf(ts, i + 1, k), ArgsOf(ts, k, j));
      } else {
        ArgsJoin(ts, i + 2, k, j);
      }
    }
  }

  lemma {:induction false} RedirsJoin(ts: seq<Token>, i: nat, k: nat, j: nat)
    requires Items(ts, i, k) && Items(ts, k, j) && Items(ts, i, j)
    ensures RedirsOf(ts, i, j) == RedirsOf(ts, i, k) + RedirsOf(ts, k, j)
    decreases k - i
  {
    if i < k {
      if ts[i].kind == 'a' {
        RedirsJoin(ts, i + 1, k, j);
      } else {
        RedirsJoin(ts, i + 2, k, j);
        ConsAssoc(Redirect(WordOf(ts[i + 1]), ts[i].kind != '<'), RedirsOf(ts, i + 2, k), RedirsOf(ts, k, j));
      }
    }
  }

  lemma ItemsJoin(ts: seq<Token>, i: nat, k: nat, j: nat)
    requires Items(ts, i, k) && Items(ts, k, j)
    ensures Items(ts, i, j)
    ensures ArgsOf(ts, i, j) == ArgsOf(ts, i, k) + ArgsOf(ts, k, j)
    ensures RedirsOf(ts, i, j) == RedirsOf(ts, i, k) + RedirsOf(ts, k, j)
  {
    ItemsChain(ts, i, k, j);
    ArgsJoin(ts, i, k, j);
    RedirsJoin(ts, i, k, j);
  }

  lemma {:induction false} ItemsSplit(ts: seq<Token>, i: nat, k: nat, j: nat)
    requires Items(ts, i, k) && Items(ts, i, j) && k <= j
    ensures Items(ts, k, j)
    decreases k - i
  {
    if i < k {
      ItemsSplit(ts, if ts[i].kind == 'a' then i + 1 else i + 2, k, j);
    }
  }

  /** Items that something else follows go on to the same place, whatever was read of
      them. */
  lemma ItemsRest(ts: seq<Token>, i: nat, k: nat, j: nat)
    requires Items(ts, i, k) && Items(ts, i, j) && AfterExec(ts, j)
    ensures k <= j && Items(ts, k, j)
    ensures ArgsOf(ts, i, j) == ArgsOf(ts, i, k) + ArgsOf(ts, k, j)
  {
    if j < k {
      ItemsKinds(ts, i, k, j);
    }
    ItemsSplit(ts, i, k, j);
    ItemsJoin(ts, i, k, j);
  }

  lemma ItemsOnce(ts: seq<Token>, i: nat, j: nat, j': nat)
    requires Items(ts, i, j) && Items(ts, i, j') && AfterExec(ts, j) && AfterExec(ts, j')
    ensures j == j'
  {
    ItemsRest(ts, i, j, j');
    ItemsRest(ts, i, j', j);
  }

  /** The grammar is unambiguous: from token i on there is at most one command, of at
      most one length, that something is followed by which may follow it. */
  lemma {:induction false} ExecOnce(ts: seq<Token>, i: nat, j: nat, c: Cmd<Tok>, j': nat, c': Cmd<Tok>)
    requires IsExec(ts, i, j, c) && IsExec(ts, i, j', c') && AfterExec(ts, j) && AfterExec(ts, j')
    ensures j == j' && c == c'
    decreases |ts| - i, 1
  {
    SimpleOrBlock(ts, i, j, c);
    SimpleOrBlock(ts, i, j', c');
    if Kind(ts, i, '(') {
      var m: nat, d :| i < j && IsBlock(ts, i, m, j, d, c);
      var m': nat, d' :| i < j' && IsBlock(ts, i, m', j', d', c');
      BlockOnce(ts, i, m, j, d, c, m', j', d', c');
    } else {
      ItemsOnce(ts, i, j, j');
    }
  }

  lemma BlockOnce(ts: seq<Token>, i: nat, m: nat, j: nat, d: Cmd<Tok>, c: Cmd<Tok>,
                  m': nat, j': nat, d': Cmd<Tok>, c': Cmd<Tok>)
    requires i < |ts| && IsBlock(ts, i, m, j, d, c) && IsBlock(ts, i, m', j', d', c')
    requires AfterExec(ts, j) && AfterExec(ts, j')
    ensures j == j' && c == c'
    decreases |ts| - i, 0
  {
    LineOnce(ts, i + 1, m, d, m', d');
    ItemsOnce(ts, m + 1, j, j');
  }

  lemma SimpleOrBlock(ts: seq<Token>, i: nat, j: nat, c: Cmd<Tok>)
    requires IsExec(ts, i, j, c) && AfterExec(ts, j)
    ensures if Kind(ts, i, '(') then exists m: nat, d :: i < j && IsBlock(ts, i, m, j, d, c) else IsSimple(ts, i, j, c)
  {
    if IsSimple(ts, i, j, c) && i < j {
      ItemsKinds(ts, i, j, i);
    }
  }

  lemma {:induction false} PipeOnce(ts: seq<Token>, i: nat, j: nat, c: Cmd<Tok>, j': nat, c': Cmd<Tok>)
    requires IsPipe(ts, i, j, c) && IsPipe(ts, i, j', c') && AfterPipe(ts, j) && AfterPipe(ts, j')
    ensures j == j' && c == c'
    decreases |ts| - i, 2
  {
    var m, l := FirstExec(ts, i, j, c);
    var m', l' := FirstExec(ts, i, j', c');
    ExecOnce(ts, i, m, l, m', l');
    if Kind(ts, m, '|') {
      PipeOnce(ts, m + 1, j, c.right, j', c'.right);
    }
  }

  /** The first command of a pipe. */
  lemma FirstExec(ts: seq<Token>, i: nat, j: nat, c: Cmd<Tok>) returns (m: nat, l: Cmd<Tok>)
    requires IsPipe(ts, i, j, c) && AfterPipe(ts, j)
    ensures i <= m <= j <= |ts| && IsExec(ts, i, m, l) && AfterExec(ts, m)
    ensures if Kind(ts, m, '|') then m < j && c.Pipe? && l == c.left && IsPipe(ts, m + 1, j, c.right)
            else m == j && l == c
  {
    if IsExec(ts, i, j, c) {
      ExecRange(ts, i, j, c);
      m, l := j, c;
    } else {
      m :| i <= m < j && Kind(ts, m, '|') && IsExec(ts, i, m, c.left) && IsPipe(ts, m + 1, j, c.right);
      l := c.left;
      PipeRange(ts, m + 1, j, c.right);
    }
  }

  lemma ExecRange(ts: seq<Token>, i: nat, j: nat, c: Cmd<Tok>)
    requires IsExec(ts, i, j, c)
    ensures i <= j <= |ts|
  {
    if !IsSimple(ts, i, j, c) {
      var m: nat, d :| i < j && IsBlock(ts, i, m, j, d, c);
    }
  }

  lemma {:induction false} PipeRange(ts: seq<Token>, i: nat, j: nat, c: Cmd<Tok>)
    requires IsPipe(ts, i, j, c)
    ensures i <= j <= |ts|
    decreases j - i
  {
    if IsExec(ts, i, j, c) {
      ExecRange(ts, i, j, c);
    } else {
      var m :| i <= m < j && Kind(ts, m, '|') && IsExec(ts, i, m, c.left) && IsPipe(ts, m + 1, j, c.right);
      PipeRange(ts, m + 1, j, c.right);
    }
  }

  /** A pipe with ampersands after it. */
  lemma {:induction false} FrontSplit(ts: seq<Token>, i: nat, j: nat, c: Cmd<Tok>) returns (m: nat, p: Cmd<Tok>)
    requires IsFront(ts, i, j, c)
    ensures i <= m <= j <= |ts| && IsPipe(ts, i, m, p) && c == Backed(p, j - m)
    ensures forall k :: m <= k < j ==> Kind(ts, k, '&')
    decreases j - i
  {
    if IsPipe(ts, i, j, c) {
      m, p := j, c;
      PipeRange(ts, i, j, c);
    } else {
      m, p := FrontSplit(ts, i, j - 1, c.cmd);
    }
  }

  lemma FrontOnce(ts: seq<Token>, i: nat, j: nat, c: Cmd<Tok>, j': nat, c': Cmd<Tok>)
    requires IsFront(ts, i, j, c) && IsFront(ts, i, j', c') && AfterFront(ts, j) && AfterFront(ts, j')
    ensures j == j' && c == c'
    decreases |ts| - i, 3
  {
    var m, p := FrontSplit(ts, i, j, c);
    var m', p' := FrontSplit(ts, i, j', c');
    assert m < j ==> Kind(ts, m, '&');
    assert m' < j' ==> Kind(ts, m', '&');
    PipeOnce(ts, i, m, p, m', p');
    assert j < j' ==> Kind(ts, j, '&');
    assert j' < j ==> Kind(ts, j', '&');
  }

  /** A line up to its first semicolon. */
  lemma FirstFront(ts: seq<Token>, i: nat, j: nat, c: Cmd<Tok>) returns (m: nat, l: Cmd<Tok>)
    requires IsLine(ts, i, j, c) && AfterLine(ts, j)
    ensures i <= m <= j <= |ts| && IsFront(ts, i, m, l) && AfterFront(ts, m)
    ensures if Kind(ts, m, ';') then m < j && c.List? && l == c.left && IsLine(ts, m + 1, j, c.right)
            else m == j && l == c
  {
    if IsFront(ts, i, j, c) {
      m, l := j, c;
      var _, _ := FrontSplit(ts, i, j, c);
    } else {
      m :| i <= m < j && Kind(ts, m, ';') && IsFront(ts, i, m, c.left) && IsLine(ts, m + 1, j, c.right);
      l := c.left;
    }
  }

  lemma {:induction false} LineOnce(ts: seq<Token>, i: nat, j: nat, c: Cmd<Tok>, j': nat, c': Cmd<Tok>)
    requires IsLine(ts, i, j, c) && IsLine(ts, i, j', c') && AfterLine(ts, j) && AfterLine(ts, j')
    ensures j == j' && c == c'
    decreases |ts| - i, 4
  {
    var m, l := FirstFront(ts, i, j, c);
    var m', l' := FirstFront(ts, i, j', c');
    FrontOnce(ts, i, m, l, m', l');
    if Kind(ts, m, ';') {
      LineOnce(ts, m + 1, j, c.right, j', c'.right);
    }
  }

  // ------------------------------------------------------ items read one by one

  /** Tokens i to j - 1 are the words and redirections of x. The quantifier keeps them
      folded. */
  ghost predicate ReadItems(ts: seq<Token>, i: nat, j: nat, x: Simple) {
    && i <= j <= |ts|
    && forall k: nat {:trigger Items(ts, i, k)} :: k == j ==>
         Items(ts, i, k) && x == Simple(ArgsOf(ts, i, k), RedirsOf(ts, i, k))
  }

  predicate NoArrow(ts: seq<Token>, j: nat) { j < |ts| ==> !IsArrow(ts[j].kind) }

  lemma NothingRead(ts: seq<Token>, i: nat)
    requires i <= |ts|
    ensures ReadItems(ts, i, i, Simple([], []))
  {
  }

  function RedirectOf(op: Token, file: Token): Redirect<Tok> { Redirect(WordOf(file), op.kind != '<') }

  lemma RedirNext(ts: seq<Token>, i: nat, j: nat, x: Simple)
    requires ReadItems(ts, i, j, x) && j + 1 < |ts| && IsArrow(ts[j].kind) && Kind(ts, j + 1, 'a')
    ensures ReadItems(ts, i, j + 2, Simple(x.args, x.rs + [RedirectOf(ts[j], ts[j + 1])]))
  {
    assert Items(ts, i, j) && Items(ts, j + 2, j + 2);
    ItemsJoin(ts, i, j, j + 2);
  }

  lemma RedirFirst(ts: seq<Token>, i: nat, j: nat, rs: seq<Redirect<Tok>>)
    requires ReadItems(ts, i + 2, j, Simple([], rs)) && IsArrow(ts[i].kind) && Kind(ts, i + 1, 'a')
    ensures ReadItems(ts, i, j, Simple([], [RedirectOf(ts[i], ts[i + 1])] + rs))
  {
    assert Items(ts, i + 2, j);
  }

  lemma WordFirst(ts: seq<Token>, i: nat, j: nat, x: Simple)
    requires ReadItems(ts, i + 1, j, x) && Kind(ts, i, 'a')
    ensures ReadItems(ts, i, j, Simple([WordOf(ts[i])] + x.args, x.rs))
  {
    assert Items(ts, i + 1, j);
  }

  /** A word and the redirections after it. */
  lemma ArgNext(ts: seq<Token>, i: nat, j: nat, x: Simple, j': nat, rs: seq<Redirect<Tok>>)
    requires ReadItems(ts, i, j, x) && Kind(ts, j, 'a') && ReadItems(ts, j + 1, j', Simple([], rs))
    ensures ReadItems(ts, i, j', Simple(x.args + [WordOf(ts[j])], x.rs + rs))
  {
    assert Items(ts, i, j) && Items(ts, j + 1, j');
    assert Items(ts, j, j') && ArgsOf(ts, j, j') == [WordOf(ts[j])];
    ItemsJoin(ts, i, j, j');
  }

  // ------------------------------------------------ reading from token i, or not

  /** From token i on there is no command that something may follow. */
  ghost predicate NoExec(ts: seq<Token>, i: nat) {
    forall j: nat, c :: IsExec(ts, i, j, c) ==> !AfterExec(ts, j)
  }

  ghost predicate NoPipe(ts: seq<Token>, i: nat) {
    forall j: nat, c :: IsPipe(ts, i, j, c) ==> !AfterPipe(ts, j)
  }

  ghost predicate NoFront(ts: seq<Token>, i: nat) {
    forall j: nat, c :: IsFront(ts, i, j, c) ==> !AfterFront(ts, j)
  }

  ghost predicate NoLine(ts: seq<Token>, i: nat) {
    forall j: nat, c :: IsLine(ts, i, j, c) ==> !AfterLine(ts, j)
  }

  /** Tokens i to j - 1 are a command, the right one if there is one at all. Again the
      quantifiers keep this folded. */
  ghost predicate FoundExec(ts: seq<Token>, i: nat, j: nat, c: Cmd<Tok>) {
    forall k: nat {:trigger IsExec(ts, i, k, c)} :: k == j ==>
        IsExec(ts, i, k, c) && (AfterExec(ts, k) || NoExec(ts, i))
  }

  ghost predicate FoundPipe(ts: seq<Token>, i: nat, j: nat, c: Cmd<Tok>) {
    forall k: nat {:trigger IsPipe(ts, i, k, c)} :: k == j ==>
        IsPipe(ts, i, k, c) && (AfterPipe(ts, k) || NoPipe(ts, i))
  }

  ghost predicate FoundFront(ts: seq<Token>, i: nat, j: nat, c: Cmd<Tok>) {
    forall k: nat {:trigger IsFront(ts, i, k, c)} :: k == j ==>
        IsFront(ts, i, k, c) && (AfterFront(ts, k) || NoFront(ts, i))
  }

  ghost predicate FoundLine(ts: seq<Token>, i: nat, j: nat, c: Cmd<Tok>) {
    forall k: nat {:trigger IsLine(ts, i, k, c)} :: k == j ==>
        IsLine(ts, i, k, c) && (AfterLine(ts, k) || NoLine(ts, i))
  }

  /** No word or redirection can be read at k, though something is there. */
  ghost predicate Stuck(ts: seq<Token>, k: nat) {
    k < |ts| && !AfterExec(ts, k) && ts[k].kind != 'a' && (IsArrow(ts[k].kind) ==> !Kind(ts, k + 1, 'a'))
  }

  lemma SimpleFound(ts: seq<Token>, i: nat, j: nat, x: Simple)
    requires ReadItems(ts, i, j, x) && |x.args| < MAXARGS && AfterExec(ts, j)
    ensures FoundExec(ts, i, j, Wrap(Exec(x.args), x.rs))
  {
    assert Items(ts, i, j);
  }

  /** After the items up to k nothing fits, or one word too many follows. */
  lemma SimpleNotFound(ts: seq<Token>, i: nat, k: nat, x: Simple)
    requires !Kind(ts, i, '(') && ReadItems(ts, i, k, x)
    requires Stuck(ts, k) || (Kind(ts, k, 'a') && |x.args| + 1 >= MAXARGS)
    ensures NoExec(ts, i)
  {
    assert Items(ts, i, k);
    forall j: nat, c | IsExec(ts, i, j, c) ensures !AfterExec(ts, j) {
      if AfterExec(ts, j) {
        SimpleOrBlock(ts, i, j, c);
        ItemsRest(ts, i, k, j);
      }
    }
  }

  lemma BlockFound(ts: seq<Token>, i: nat, m: nat, d: Cmd<Tok>, j: nat, rs: seq<Redirect<Tok>>)
    requires Kind(ts, i, '(') && FoundLine(ts, i + 1, m, d) && Kind(ts, m, ')')
    requires ReadItems(ts, m + 1, j, Simple([], rs)) && NoArrow(ts, j)
    ensures FoundExec(ts, i, j, Wrap(d, rs))
  {
    assert IsLine(ts, i + 1, m, d) && Items(ts, m + 1, j);
    LineRange(ts, i + 1, m, d);
    assert IsBlock(ts, i, m, j, d, Wrap(d, rs));
    if !AfterExec(ts, j) {
      BlockOver(ts, i, m, d, j);
    }
  }

  lemma BlockNotFound(ts: seq<Token>, i: nat, m: nat, d: Cmd<Tok>, j: nat, rs: seq<Redirect<Tok>>)
    requires Kind(ts, i, '(') && FoundLine(ts, i + 1, m, d)
    requires Kind(ts, m, ')') ==> ReadItems(ts, m + 1, j, Simple([], rs)) && Stuck(ts, j)
    ensures NoExec(ts, i)
  {
    assert IsLine(ts, i + 1, m, d);
    assert Kind(ts, m, ')') ==> Items(ts, m + 1, j);
    BlockOver(ts, i, m, d, j);
  }

  /** A block whose line is over at m, and whose redirections are over at j where nothing
      fits. */
  lemma BlockOver(ts: seq<Token>, i: nat, m: nat, d: Cmd<Tok>, j: nat)
    requires Kind(ts, i, '(') && IsLine(ts, i + 1, m, d) && (AfterLine(ts, m) || NoLine(ts, i + 1))
    requires Kind(ts, m, ')') ==> Items(ts, m + 1, j) && ArgsOf(ts, m + 1, j) == [] && !AfterExec(ts, j)
    requires Kind(ts, m, ')') ==> j < |ts| && (ts[j].kind != 'a' ==> Stuck(ts, j))
    ensures NoExec(ts, i)
  {
    forall j': nat, c | IsExec(ts, i, j', c) ensures !AfterExec(ts, j') {
      if AfterExec(ts, j') {
        SimpleOrBlock(ts, i, j', c);
        var m': nat, d' :| i < j' && IsBlock(ts, i, m', j', d', c);
        assert AfterLine(ts, m');
        LineOnce(ts, i + 1, m, d, m', d');
        ItemsRest(ts, m + 1, j, j');
      }
    }
  }

  lemma NoInnerLine(ts: seq<Token>, i: nat)
    requires Kind(ts, i, '(') && NoLine(ts, i + 1)
    ensures NoExec(ts, i)
  {
    forall j: nat, c | IsExec(ts, i, j, c) ensures !AfterExec(ts, j) {
      if AfterExec(ts, j) {
        SimpleOrBlock(ts, i, j, c);
      }
    }
  }

  lemma NoHead(ts: seq<Token>, i: nat)
    ensures NoExec(ts, i) ==> NoPipe(ts, i)
    ensures NoPipe(ts, i) ==> NoFront(ts, i)
    ensures NoFront(ts, i) ==> NoLine(ts, i)
  {
    forall j: nat, c | NoExec(ts, i) && IsPipe(ts, i, j, c) ensures !AfterPipe(ts, j) {
      if AfterPipe(ts, j) {
        var _, _ := FirstExec(ts, i, j, c);
      }
    }
    forall j: nat, c | NoPipe(ts, i) && IsFront(ts, i, j, c) ensures !AfterFront(ts, j) {
      if AfterFront(ts, j) {
        var m, p := FrontSplit(ts, i, j, c);
        assert AfterPipe(ts, m);
      }
    }
    forall j: nat, c | NoFront(ts, i) && IsLine(ts, i, j, c) ensures !AfterLine(ts, j) {
      if AfterLine(ts, j) {
        var _, _ := FirstFront(ts, i, j, c);
      }
    }
  }

  lemma PipeFound(ts: seq<Token>, i: nat, j: nat, c: Cmd<Tok>)
    requires FoundExec(ts, i, j, c) && !Kind(ts, j, '|')
    ensures FoundPipe(ts, i, j, c)
  {
    assert IsExec(ts, i, j, c);
    NoHead(ts, i);
  }

  lemma PipeNotFound(ts: seq<Token>, i: nat, m: nat, l: Cmd<Tok>)
    requires FoundExec(ts, i, m, l) && Kind(ts, m, '|') && NoPipe(ts, m + 1)
    ensures NoPipe(ts, i)
  {
    assert IsExec(ts, i, m, l);
    forall j: nat, c | IsPipe(ts, i, j, c) ensures !AfterPipe(ts, j) {
      if AfterPipe(ts, j) {
        var m', l' := FirstExec(ts, i, j, c);
        ExecOnce(ts, i, m, l, m', l');
      }
    }
  }

  lemma PipeJoin(ts: seq<Token>, i: nat, m: nat, l: Cmd<Tok>, j: nat, r: Cmd<Tok>)
    requires IsExec(ts, i, m, l) && Kind(ts, m, '|') && IsPipe(ts, m + 1, j, r)
    ensures IsPipe(ts, i, j, Pipe(l, r))
  {
    ExecRange(ts, i, m, l);
    PipeRange(ts, m + 1, j, r);
  }

  lemma PipeLonger(ts: seq<Token>, i: nat, m: nat, l: Cmd<Tok>, j: nat, r: Cmd<Tok>)
    requires FoundExec(ts, i, m, l) && Kind(ts, m, '|') && FoundPipe(ts, m + 1, j, r)
    ensures FoundPipe(ts, i, j, Pipe(l, r))
  {
    assert IsExec(ts, i, m, l) && IsPipe(ts, m + 1, j, r);
    PipeJoin(ts, i, m, l, j, r);
    if !AfterPipe(ts, j) {
      PipeNotFound(ts, i, m, l);
    }
  }

  lemma {:induction false} BacksFront(ts: seq<Token>, i: nat, m: nat, p: Cmd<Tok>, j: nat)
    requires IsPipe(ts, i, m, p) && i <= m <= j <= |ts| && forall k :: m <= k < j ==> Kind(ts, k, '&')
    ensures IsFront(ts, i, j, Backed(p, j - m))
    decreases j
  {
    if m < j {
      BacksFront(ts, i, m, p, j - 1);
    }
  }

  lemma FrontLength(ts: seq<Token>, i: nat, m: nat, p: Cmd<Tok>, j: nat, j': nat, c: Cmd<Tok>)
    requires FoundPipe(ts, i, m, p) && m <= j <= |ts| && (forall k :: m <= k < j ==> Kind(ts, k, '&'))
    requires !Kind(ts, j, '&') && IsFront(ts, i, j', c) && AfterFront(ts, j')
    ensures j == j'
  {
    assert IsPipe(ts, i, m, p);
    var m', p' := FrontSplit(ts, i, j', c);
    assert AfterPipe(ts, m');
    assert m < j ==> Kind(ts, m, '&');
    PipeOnce(ts, i, m, p, m', p');
    assert j < j' ==> Kind(ts, j, '&');
    assert j' < j ==> Kind(ts, j', '&');
  }

  lemma FrontFound(ts: seq<Token>, i: nat, m: nat, p: Cmd<Tok>, j: nat)
    requires FoundPipe(ts, i, m, p) && m <= j <= |ts| && forall k :: m <= k < j ==> Kind(ts, k, '&')
    requires !Kind(ts, j, '&')
    ensures FoundFront(ts, i, j, Backed(p, j - m))
  {
    assert IsPipe(ts, i, m, p);
    PipeRange(ts, i, m, p);
    BacksFront(ts, i, m, p, j);
    if !AfterFront(ts, j) {
      forall j': nat, c | IsFront(ts, i, j', c) ensures !AfterFront(ts, j') {
        if AfterFront(ts, j') {
          FrontLength(ts, i, m, p, j, j', c);
        }
      }
    }
  }

  lemma LineFound(ts: seq<Token>, i: nat, j: nat, c: Cmd<Tok>)
    requires FoundFront(ts, i, j, c) && !Kind(ts, j, ';')
    ensures FoundLine(ts, i, j, c)
  {
    assert IsFront(ts, i, j, c);
    NoHead(ts, i);
  }

  lemma LineNotFound(ts: seq<Token>, i: nat, m: nat, l: Cmd<Tok>)
    requires FoundFront(ts, i, m, l) && Kind(ts, m, ';') && NoLine(ts, m + 1)
    ensures NoLine(ts, i)
  {
    assert IsFront(ts, i, m, l);
    forall j: nat, c | IsLine(ts, i, j, c) ensures !AfterLine(ts, j) {
      if AfterLine(ts, j) {
        var m', l' := FirstFront(ts, i, j, c);
        FrontOnce(ts, i, m, l, m', l');
      }
    }
  }

  lemma LineJoin(ts: seq<Token>, i: nat, m: nat, l: Cmd<Tok>, j: nat, r: Cmd<Tok>)
    requires IsFront(ts, i, m, l) && Kind(ts, m, ';') && IsLine(ts, m + 1, j, r)
    ensures IsLine(ts, i, j, List(l, r))
  {
    LineRange(ts, i, m, l);
    LineRange(ts, m + 1, j, r);
  }

  lemma LineLonger(ts: seq<Token>, i: nat, m: nat, l: Cmd<Tok>, j: nat, r: Cmd<Tok>)
    requires FoundFront(ts, i, m, l) && Kind(ts, m, ';') && FoundLine(ts, m + 1, j, r)
    ensures FoundLine(ts, i, j, List(l, r))
  {
    assert IsFront(ts, i, m, l) && IsLine(ts, m + 1, j, r);
    LineJoin(ts, i, m, l, j, r);
    if !AfterLine(ts, j) {
      LineNotFound(ts, i, m, l);
    }
  }

  lemma {:induction false} LineRange(ts: seq<Token>, i: nat, j: nat, c: Cmd<Tok>)
    requires IsLine(ts, i, j, c)
    ensures i <= j <= |ts|
    decreases j - i
  {
    if IsFront(ts, i, j, c) {
      var _, _ := FrontSplit(ts, i, j, c);
    } else {
      var m :| i <= m < j && Kind(ts, m, ';') && IsFront(ts, i, m, c.left) && IsLine(ts, m + 1, j, c.right);
      LineRange(ts, m + 1, j, c.right);
    }
  }
}
