/** A printer for commands, and what its text looks like at a position of the line.
 */
module ShellPrint {
  import opened ShellModel

  type Tree = Cmd<string>

  // --------------------------------------------------------------------- printer

  predicate GoodWord(w: string) {
    w != "" && forall i :: 0 <= i < |w| ==> WordChar(w[i])
  }

  predicate GoodWords(args: seq<string>) { forall i :: 0 <= i < |args| ==> GoodWord(args[i]) }

  predicate GoodRedirs(rs: seq<Redirect<string>>) { forall i :: 0 <= i < |rs| ==> GoodWord(rs[i].file) }

  /** Words that can be written down, and no more arguments than fit. */
  predicate Good(t: Tree) {
    match t
    case Exec(args) => |args| < MAXARGS && GoodWords(args)
    case Redir(c, f, _) => Good(c) && GoodWord(f)
    case Pipe(l, r) => Good(l) && Good(r)
    case List(l, r) => Good(l) && Good(r)
    case Back(c) => Good(c)
  }

  function Size(t: Tree): nat {
    match t
    case Exec(_) => 0
    case Redir(c, _, _) => 1 + Size(c)
    case Pipe(l, r) => 1 + Size(l) + Size(r)
    case List(l, r) => 1 + Size(l) + Size(r)
    case Back(c) => 1 + Size(c)
  }

  /** A command without its outer redirections, and those redirections in order. */
  function Base(t: Tree): (r: Tree)
    ensures Size(r) <= Size(t) && !r.Redir? && (t.Redir? ==> Size(r) < Size(t)) && (!t.Redir? ==> r == t)
  {
    if t.Redir? then Base(t.cmd) else t
  }

  function Outer(t: Tree): seq<Redirect<string>> {
    if t.Redir? then Outer(t.cmd) + [Redirect(t.file, t.out)] else []
  }

  lemma {:induction false} WrapOuter(t: Tree)
    ensures Wrap(Base(t), Outer(t)) == t
    ensures Good(t) ==> Good(Base(t)) && GoodRedirs(Outer(t))
  {
    if t.Redir? {
      WrapOuter(t.cmd);
      assert Outer(t)[..|Outer(t)| - 1] == Outer(t.cmd);
    }
  }

  /** The words from the k-th on, a blank between two. */
  function PrintWords(args: seq<string>, k: nat): string
    requires k <= |args|
    decreases |args| - k
  {
    if k == |args| then "" else if k + 1 == |args| then args[k] else args[k] + ([' '] + PrintWords(args, k + 1))
  }

  function Arrow(out: bool): char { if out then '>' else '<' }

  function PrintRedirs(rs: seq<Redirect<string>>, k: nat): string
    requires k <= |rs|
    decreases |rs| - k
  {
    if k == |rs| then "" else [Arrow(rs[k].out)] + (rs[k].file + PrintRedirs(rs, k + 1))
  }

  /** Line, back, pipe, exec and base level (0 to 4) pass a command on to the next level,
      and base starts over inside parentheses; how far t is from its own level. */
  function Rank(t: Tree, level: nat): nat
    requires level < 5
  {
    ((if t.List? then 0 else if t.Back? then 1 else if t.Pipe? then 2 else 4) + 5 - level) % 5
  }

  /** A list of commands; Back, Pipe and simple commands without parentheses. */
  function PrintLine(t: Tree): string
    decreases Size(t), Rank(t, 0)
  {
    if t.List? then PrintBack(t.left) + ([';'] + PrintLine(t.right)) else PrintBack(t)
  }

  function PrintBack(t: Tree): string
    decreases Size(t), Rank(t, 1)
  {
    if t.Back? then PrintBack(t.cmd) + "&" else PrintPipe(t)
  }

  function PrintPipe(t: Tree): string
    decreases Size(t), Rank(t, 2)
  {
    if t.Pipe? then PrintExec(t.left) + (['|'] + PrintPipe(t.right)) else PrintExec(t)
  }

  /** A simple command, or anything else in parentheses, then its redirections. */
  function PrintExec(t: Tree): string
    decreases Size(t), Rank(t, 3)
  {
    PrintBase(Base(t)) + PrintRedirs(Outer(t), 0)
  }

  function PrintBase(t: Tree): string
    requires !t.Redir?
    decreases Size(t), Rank(t, 4)
  {
    if t.Exec? then PrintWords(t.args, 0) else ['('] + (PrintLine(t) + [')'])
  }

  // ------------------------------------------------------------- text at a position

  ghost predicate Occurs(b: string, s: nat, p: string) {
    s + |p| <= |b| && forall i {:trigger p[i]} :: 0 <= i < |p| ==> b[s + i] == p[i]
  }

  lemma OccursSplit(b: string, s: nat, p: string, q: string)
    requires Occurs(b, s, p + q)
    ensures Occurs(b, s, p) && Occurs(b, s + |p|, q)
  {
    forall i | 0 <= i < |p| ensures b[s + i] == p[i] {
      assert (p + q)[i] == p[i];
    }
    forall i | 0 <= i < |q| ensures b[s + |p| + i] == q[i] {
      assert (p + q)[|p| + i] == q[i];
    }
  }

  lemma OccursFirst(b: string, s: nat, c: char, q: string)
    requires Occurs(b, s, [c] + q)
    ensures s < |b| && b[s] == c && Occurs(b, s + 1, q)
  {
    OccursSplit(b, s, [c], q);
    assert b[s] == [c][0];
  }

  lemma Assoc(p: string, q: string, r: string)
    ensures p + q + r == p + (q + r)
  {
  }

  /** Text, a symbol, and more text. */
  lemma OccursAround(b: string, s: nat, p: string, c: char, q: string)
    requires Occurs(b, s, p + ([c] + q))
    ensures Occurs(b, s, p) && CharAt(b, s + |p|) == c && Occurs(b, s + |p| + 1, q)
    ensures s + |p + ([c] + q)| == s + |p| + 1 + |q|
  {
    OccursSplit(b, s, p, [c] + q);
    OccursFirst(b, s + |p|, c, q);
  }

  /** Parentheses around l, and o after them. */
  lemma OccursBlock(b: string, s: nat, l: string, o: string)
    requires Occurs(b, s, ['('] + (l + ([')'] + o)))
    ensures CharAt(b, s) == '(' && Occurs(b, s + 1, l) && CharAt(b, s + 1 + |l|) == ')' && Occurs(b, s + 1 + |l| + 1, o)
    ensures s + |['('] + (l + ([')'] + o))| == s + 1 + |l| + 1 + |o|
  {
    OccursFirst(b, s, '(', l + ([')'] + o));
    OccursAround(b, s + 1, l, ')', o);
  }

  lemma WordIs(b: string, s: nat, w: string)
    requires Occurs(b, s, w)
    ensures Word(b, Tok(s, s + |w|)) == w
  {
  }

  /** The token found where a word is printed is that word. */
  lemma WordRead(b: string, s: nat, w: string, t: Token)
    requires Occurs(b, s, w) && GoodWord(w) && (s + |w| < |b| ==> !WordChar(b[s + |w|])) && TokenAt(b, s, t)
    ensures t.kind == 'a' && t.q == s && t.eq == s + |w| && Word(b, Tok(t.q, t.eq)) == w
    ensures !Blank(CharAt(b, s + |w|)) ==> t.next == s + |w|
  {
    assert b[s] == w[0];
    assert t.q == s;
    assert WordAt(b, Tok(t.q, t.eq));
    forall i | s <= i < s + |w| ensures WordChar(b[i]) {
      assert b[i] == w[i - s];
    }
    WordIs(b, s, w);
  }

  lemma SymbolRead(b: string, s: nat, t: Token)
    requires s < |b| && Symbol(b[s]) && (b[s] == '>' ==> CharAt(b, s + 1) != '>') && TokenAt(b, s, t)
    ensures t.kind == b[s] && t.q == s && t.eq == s + 1
    ensures !Blank(CharAt(b, s + 1)) ==> t.next == s + 1
  {
  }

  /** The end of the line, or a symbol after which a simple command is over. */
  predicate Ends(b: string, e: nat) {
    e == |b| || (e < |b| && Stops(b[e]))
  }

  lemma RedirsCons(b: string, s: nat, rs: seq<Redirect<string>>, k: nat)
    requires k < |rs| && Occurs(b, s, PrintRedirs(rs, k))
    ensures s < |b| && b[s] == Arrow(rs[k].out) && Occurs(b, s + 1, rs[k].file)
    ensures Occurs(b, s + 1 + |rs[k].file|, PrintRedirs(rs, k + 1))
    ensures |PrintRedirs(rs, k)| == 1 + |rs[k].file| + |PrintRedirs(rs, k + 1)|
  {
    var f, rest := rs[k].file, PrintRedirs(rs, k + 1);
    OccursFirst(b, s, Arrow(rs[k].out), f + rest);
    OccursSplit(b, s + 1, f, rest);
  }

  /** What follows a word or a redirection: a symbol or the end. */
  lemma AfterWord(b: string, s: nat, rs: seq<Redirect<string>>, k: nat)
    requires k <= |rs| && Occurs(b, s, PrintRedirs(rs, k)) && Ends(b, s + |PrintRedirs(rs, k)|)
    ensures s < |b| ==> Symbol(b[s])
    ensures k == |rs| <==> CharAt(b, s) != '<' && CharAt(b, s) != '>'
    ensures CharAt(b, s) != '('
  {
    if k < |rs| {
      RedirsCons(b, s, rs, k);
    }
  }

  lemma WordsCons(b: string, s: nat, args: seq<string>, k: nat, tail: string)
    requires k + 1 < |args| && Occurs(b, s, PrintWords(args, k) + tail)
    ensures Occurs(b, s, args[k]) && CharAt(b, s + |args[k]|) == ' '
    ensures Occurs(b, s + |args[k]| + 1, PrintWords(args, k + 1) + tail)
    ensures |PrintWords(args, k)| == |args[k]| + 1 + |PrintWords(args, k + 1)|
  {
    var w, rest := args[k], PrintWords(args, k + 1);
    Assoc(w, [' '] + rest, tail);
    Assoc([' '], rest, tail);
    OccursAround(b, s, w, ' ', rest + tail);
  }

  // ------------------------------------------------------- printed text has no blank first

  predicate NoBlankFirst(p: string) { p == "" || !Blank(p[0]) }

  lemma {:induction false} LineHead(t: Tree)
    requires Good(t)
    ensures NoBlankFirst(PrintLine(t))
    decreases Size(t), Rank(t, 0)
  {
    if t.List? {
      BackHead(t.left);
    } else {
      BackHead(t);
    }
  }

  lemma {:induction false} BackHead(t: Tree)
    requires Good(t)
    ensures NoBlankFirst(PrintBack(t))
    decreases Size(t), Rank(t, 1)
  {
    if t.Back? {
      BackHead(t.cmd);
    } else {
      PipeHead(t);
    }
  }

  lemma {:induction false} PipeHead(t: Tree)
    requires Good(t)
    ensures NoBlankFirst(PrintPipe(t))
    decreases Size(t), Rank(t, 2)
  {
    if t.Pipe? {
      ExecHead(t.left);
    } else {
      ExecHead(t);
    }
  }

  lemma ExecHead(t: Tree)
    requires Good(t)
    ensures NoBlankFirst(PrintExec(t))
  {
  }

  /** So nothing is skipped where text is printed. */
  lemma NothingSkipped(b: string, s: nat, p: string)
    requires Occurs(b, s, p) && NoBlankFirst(p) && !Blank(CharAt(b, s + |p|))
    ensures !Blank(CharAt(b, s))
  {
  }

  // ------------------------------------------------------------- printed text is a C string

  lemma NoNulConcat(p: string, q: string)
    requires Line(p) && Line(q)
    ensures Line(p + q)
  {
  }

  lemma {:induction false} LinePrinted(t: Tree)
    requires Good(t)
    ensures Line(PrintLine(t))
    decreases Size(t), Rank(t, 0)
  {
    if t.List? {
      BackPrinted(t.left);
      LinePrinted(t.right);
      NoNulConcat([';'], PrintLine(t.right));
      NoNulConcat(PrintBack(t.left), [';'] + PrintLine(t.right));
    } else {
      BackPrinted(t);
    }
  }

  lemma {:induction false} BackPrinted(t: Tree)
    requires Good(t)
    ensures Line(PrintBack(t))
    decreases Size(t), Rank(t, 1)
  {
    if t.Back? {
      BackPrinted(t.cmd);
    } else {
      PipePrinted(t);
    }
  }

  lemma {:induction false} PipePrinted(t: Tree)
    requires Good(t)
    ensures Line(PrintPipe(t))
    decreases Size(t), Rank(t, 2)
  {
    if t.Pipe? {
      ExecPrinted(t.left);
      PipePrinted(t.right);
      NoNulConcat(['|'], PrintPipe(t.right));
      NoNulConcat(PrintExec(t.left), ['|'] + PrintPipe(t.right));
    } else {
      ExecPrinted(t);
    }
  }

  lemma {:induction false} ExecPrinted(t: Tree)
    requires Good(t)
    ensures Line(PrintExec(t))
    decreases Size(t), Rank(t, 3)
  {
    WrapOuter(t);
    RedirsPrinted(Outer(t), 0);
    var u := Base(t);
    if u.Exec? {
      WordsPrinted(u.args, 0);
    } else {
      LinePrinted(u);
    }
    NoNulConcat(PrintBase(u), PrintRedirs(Outer(t), 0));
  }

  lemma {:induction false} WordsPrinted(args: seq<string>, k: nat)
    requires GoodWords(args) && k <= |args|
    ensures Line(PrintWords(args, k))
    decreases |args| - k
  {
    if k < |args| {
      WordsPrinted(args, k + 1);
      NoNulConcat([' '], PrintWords(args, k + 1));
      NoNulConcat(args[k], [' '] + PrintWords(args, k + 1));
    }
  }

  lemma {:induction false} RedirsPrinted(rs: seq<Redirect<string>>, k: nat)
    requires GoodRedirs(rs) && k <= |rs|
    ensures Line(PrintRedirs(rs, k))
    decreases |rs| - k
  {
    if k < |rs| {
      RedirsPrinted(rs, k + 1);
      NoNulConcat(rs[k].file, PrintRedirs(rs, k + 1));
      NoNulConcat([Arrow(rs[k].out)], rs[k].file + PrintRedirs(rs, k + 1));
    }
  }

  // --------------------------------------------------------------- commands in background

  function Core(t: Tree): (r: Tree)
    ensures !r.Back? && Size(r) <= Size(t) && (!t.Back? ==> r == t)
  {
    if t.Back? then Core(t.cmd) else t
  }

  function Depth(t: Tree): nat {
    if t.Back? then Depth(t.cmd) + 1 else 0
  }

  function Amps(n: nat): (r: string)
    ensures |r| == n && forall i :: 0 <= i < n ==> r[i] == '&'
  {
    seq(n, _ => '&')
  }

  lemma {:induction false} BackForm(t: Tree)
    ensures t == Backed(Core(t), Depth(t)) && PrintBack(t) == PrintPipe(Core(t)) + Amps(Depth(t))
    ensures Good(t) ==> Good(Core(t))
  {
    if t.Back? {
      BackForm(t.cmd);
      assert Amps(Depth(t)) == Amps(Depth(t.cmd)) + "&";
    } else {
      assert PrintPipe(t) + Amps(0) == PrintPipe(t);
    }
  }
}
