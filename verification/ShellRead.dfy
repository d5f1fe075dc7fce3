/** Where the text of a command stands on a line, the tokens there make up that command.
 */
module ShellRead {
  import opened ShellModel
  import opened ShellPrint
  import opened ShellGrammar

  // ---------------------------------------------------------------- redirections

  /** The redirections from the k-th on are printed at s, and the command is over then. */
  ghost predicate SpellsRedirs(b: string, s: nat, rs: seq<Redirect<string>>, k: nat) {
    k <= |rs| && Occurs(b, s, PrintRedirs(rs, k)) && Ends(b, s + |PrintRedirs(rs, k)|) && GoodRedirs(rs)
  }

  lemma SpellsRest(b: string, s: nat, rs: seq<Redirect<string>>, k: nat)
    requires k < |rs| && SpellsRedirs(b, s, rs, k)
    ensures SpellsRedirs(b, s + 1 + |rs[k].file|, rs, k + 1)
    ensures s + 1 + |rs[k].file| + |PrintRedirs(rs, k + 1)| == s + |PrintRedirs(rs, k)|
  {
    RedirsCons(b, s, rs, k);
  }

  /** What one turn of parseredirs finds where redirections are printed. */
  lemma RedirFound(b: string, s: nat, rs: seq<Redirect<string>>, k: nat, op: Token, f: Token)
    requires k < |rs| && SpellsRedirs(b, s, rs, k) && TokenAt(b, s, op) && TokenAt(b, op.next, f)
    ensures op.kind == Arrow(rs[k].out) && f.kind == 'a' && Word(b, Tok(f.q, f.eq)) == rs[k].file
    ensures f.next == s + 1 + |rs[k].file|
  {
    RedirsCons(b, s, rs, k);
    SpellsRest(b, s, rs, k);
    var w := rs[k].file;
    assert b[s + 1] == w[0];
    SymbolRead(b, s, op);
    AfterWord(b, s + 1 + |w|, rs, k + 1);
    WordRead(b, s + 1, w, f);
  }

  lemma Prefix<T>(s: seq<T>, k: nat)
    requires k < |s|
    ensures s[k..] == [s[k]] + s[k + 1..]
  {
  }

  lemma TokenHere(b: string, ts: seq<Token>, i: nat, s: nat)
    requires At(b, ts, i, s) && s < |b| && !Blank(b[s])
    ensures i < |ts| && TokenAt(b, s, ts[i]) && At(b, ts, i + 1, ts[i].next)
  {
    assert Here(b, ts, i, s) && Linked(b, ts, i);
  }

  lemma RedirectsFirst(b: string, r: Redirect<Tok>, rest: seq<Redirect<Tok>>, rs: seq<Redirect<string>>, k: nat)
    requires k < |rs| && Word(b, r.file) == rs[k].file && r.out == rs[k].out && Redirects(b, rest) == rs[k + 1..]
    ensures Redirects(b, [r] + rest) == rs[k..]
  {
    Prefix(rs, k);
    assert Redirects(b, [r] + rest) == [rs[k]] + Redirects(b, rest);
  }

  lemma {:induction false} RedirsMade(b: string, s: nat, rs: seq<Redirect<string>>, k: nat, ts: seq<Token>, i: nat)
    returns (e: nat, j: nat, toks: seq<Redirect<Tok>>)
    requires SpellsRedirs(b, s, rs, k) && At(b, ts, i, s)
    ensures ReadItems(ts, i, j, Simple([], toks)) && At(b, ts, j, e) && e == s + |PrintRedirs(rs, k)|
    ensures Redirects(b, toks) == rs[k..]
    decreases |rs| - k
  {
    if k == |rs| {
      e, j, toks := s, i, [];
      NothingRead(ts, i);
    } else {
      RedirsCons(b, s, rs, k);
      TokenHere(b, ts, i, s);
      RedirNamed(b, s, rs, k, ts[i]);
      TokenHere(b, ts, i + 1, s + 1);
      RedirFound(b, s, rs, k, ts[i], ts[i + 1]);
      SpellsRest(b, s, rs, k);
      var rest;
      e, j, rest := RedirsMade(b, s + 1 + |rs[k].file|, rs, k + 1, ts, i + 2);
      toks := [RedirectOf(ts[i], ts[i + 1])] + rest;
      RedirFirst(ts, i, j, rest);
      RedirectsFirst(b, RedirectOf(ts[i], ts[i + 1]), rest, rs, k);
    }
  }

  lemma RedirNamed(b: string, s: nat, rs: seq<Redirect<string>>, k: nat, op: Token)
    requires k < |rs| && SpellsRedirs(b, s, rs, k) && TokenAt(b, s, op)
    ensures op.next == s + 1 < |b| && !Blank(b[s + 1])
  {
    RedirsCons(b, s, rs, k);
    assert b[s + 1] == rs[k].file[0];
    SymbolRead(b, s, op);
  }

  // ------------------------------------------------------------- simple commands

  /** The words from the k-th on, one blank apart, then the redirections. */
  ghost predicate SpellsWords(b: string, s: nat, args: seq<string>, k: nat, rs: seq<Redirect<string>>)
    decreases |args| - k
  {
    k <= |args| &&
    if k == |args| then SpellsRedirs(b, s, rs, 0)
    else
      && Occurs(b, s, args[k]) && GoodWord(args[k])
      && if k + 1 == |args| then SpellsRedirs(b, s + |args[k]|, rs, 0)
         else CharAt(b, s + |args[k]|) == ' ' && SpellsWords(b, s + |args[k]| + 1, args, k + 1, rs)
  }

  lemma {:induction false} SpellsPrinted(b: string, s: nat, args: seq<string>, k: nat, rs: seq<Redirect<string>>)
    requires k <= |args| && Occurs(b, s, PrintWords(args, k) + PrintRedirs(rs, 0))
    requires Ends(b, s + |PrintWords(args, k)| + |PrintRedirs(rs, 0)|) && GoodWords(args) && GoodRedirs(rs)
    ensures SpellsWords(b, s, args, k, rs)
    decreases |args| - k
  {
    if k + 1 < |args| {
      WordsCons(b, s, args, k, PrintRedirs(rs, 0));
      SpellsPrinted(b, s + |args[k]| + 1, args, k + 1, rs);
    } else {
      var w := if k == |args| then "" else args[k];
      assert PrintWords(args, k) == w;
      OccursSplit(b, s, w, PrintRedirs(rs, 0));
    }
  }

  lemma SpellsHead(b: string, s: nat, args: seq<string>, k: nat, rs: seq<Redirect<string>>)
    requires k < |args| && SpellsWords(b, s, args, k, rs)
    ensures s < |b| && WordChar(b[s])
  {
    assert b[s] == args[k][0];
  }

  /** The token found where words are spelled, and where it leads. */
  lemma WordFound(b: string, s: nat, args: seq<string>, k: nat, rs: seq<Redirect<string>>, t: Token)
    requires k < |args| && SpellsWords(b, s, args, k, rs) && TokenAt(b, s, t)
    ensures t.kind == 'a' && Word(b, Tok(t.q, t.eq)) == args[k]
    ensures k + 1 == |args| ==> t.next == s + |args[k]| && SpellsRedirs(b, t.next, rs, 0)
    ensures k + 1 < |args| ==>
            t.next == s + |args[k]| + 1 && SpellsWords(b, t.next, args, k + 1, rs)
  {
    var e := s + |args[k]|;
    if k + 1 == |args| {
      AfterWord(b, e, rs, 0);
    } else {
      SpellsHead(b, e + 1, args, k + 1, rs);
    }
    WordRead(b, s, args[k], t);
  }

  lemma WordsFirst(b: string, t: Tok, rest: seq<Tok>, args: seq<string>, k: nat)
    requires k < |args| && Word(b, t) == args[k] && Words(b, rest) == args[k + 1..]
    ensures Words(b, [t] + rest) == args[k..]
  {
    Prefix(args, k);
    assert Words(b, [t] + rest) == [args[k]] + Words(b, rest);
  }

  lemma {:induction false} WordsMade(b: string, s: nat, args: seq<string>, k: nat, rs: seq<Redirect<string>>,
                                     ts: seq<Token>, i: nat)
    returns (e: nat, j: nat, x: Simple)
    requires SpellsWords(b, s, args, k, rs) && At(b, ts, i, s)
    ensures ReadItems(ts, i, j, x) && At(b, ts, j, e) && e == s + |PrintWords(args, k)| + |PrintRedirs(rs, 0)|
    ensures Words(b, x.args) == args[k..] && Redirects(b, x.rs) == rs
    decreases |args| - k
  {
    if k == |args| {
      var toks;
      e, j, toks := RedirsMade(b, s, rs, 0, ts, i);
      x := Simple([], toks);
    } else {
      SpellsHead(b, s, args, k, rs);
      TokenHere(b, ts, i, s);
      WordFound(b, s, args, k, rs, ts[i]);
      var rest;
      e, j, rest := WordsMade(b, ts[i].next, args, k + 1, rs, ts, i + 1);
      x := Simple([WordOf(ts[i])] + rest.args, rest.rs);
      WordFirst(ts, i, j, rest);
      WordsFirst(b, WordOf(ts[i]), rest.args, args, k);
    }
  }

  // ------------------------------------------------------- where commands are printed

  /** A pipe is over at the end or before one of )&; and a line at the end or before ). */
  predicate EndsPipe(b: string, e: nat) {
    e == |b| || (e < |b| && (b[e] == ')' || b[e] == '&' || b[e] == ';'))
  }

  predicate EndsLine(b: string, e: nat) {
    e == |b| || (e < |b| && b[e] == ')')
  }

  ghost predicate ReadsExec(b: string, s: nat, t: Tree) {
    Good(t) && Occurs(b, s, PrintExec(t)) && Ends(b, s + |PrintExec(t)|)
  }

  ghost predicate ReadsPipe(b: string, s: nat, t: Tree) {
    Good(t) && Occurs(b, s, PrintPipe(t)) && EndsPipe(b, s + |PrintPipe(t)|)
  }

  ghost predicate ReadsLine(b: string, s: nat, t: Tree) {
    Good(t) && Occurs(b, s, PrintLine(t)) && EndsLine(b, s + |PrintLine(t)|)
  }

  lemma SimpleParts(b: string, s: nat, t: Tree)
    requires ReadsExec(b, s, t) && Base(t).Exec?
    ensures SpellsWords(b, s, Base(t).args, 0, Outer(t)) && |Base(t).args| < MAXARGS
    ensures |PrintExec(t)| == |PrintWords(Base(t).args, 0)| + |PrintRedirs(Outer(t), 0)|
    ensures !Blank(CharAt(b, s)) && CharAt(b, s) != '('
  {
    WrapOuter(t);
    var args, rs := Base(t).args, Outer(t);
    assert PrintBase(Base(t)) == PrintWords(args, 0);
    SpellsPrinted(b, s, args, 0, rs);
    if args != [] {
      SpellsHead(b, s, args, 0, rs);
    } else {
      AfterWord(b, s, rs, 0);
    }
  }

  lemma BlockText(t: Tree)
    requires !Base(t).Exec?
    ensures PrintExec(t) == ['('] + (PrintLine(Base(t)) + ([')'] + PrintRedirs(Outer(t), 0)))
  {
  }

  lemma BlockParts(b: string, s: nat, t: Tree) returns (e: nat)
    requires ReadsExec(b, s, t) && !Base(t).Exec?
    ensures CharAt(b, s) == '(' && ReadsLine(b, s + 1, Base(t)) && !Blank(CharAt(b, s + 1))
    ensures e == s + 1 + |PrintLine(Base(t))| && CharAt(b, e) == ')'
    ensures SpellsRedirs(b, e + 1, Outer(t), 0) && !Blank(CharAt(b, e + 1))
    ensures s + |PrintExec(t)| == e + 1 + |PrintRedirs(Outer(t), 0)|
  {
    e := s + 1 + |PrintLine(Base(t))|;
    WrapOuter(t);
    var l, o := PrintLine(Base(t)), PrintRedirs(Outer(t), 0);
    BlockText(t);
    OccursBlock(b, s, l, o);
    LineHead(Base(t));
    NothingSkipped(b, s + 1, l);
    AfterWord(b, s + 1 + |l| + 1, Outer(t), 0);
  }

  lemma PipeParts(b: string, s: nat, t: Tree) returns (e: nat)
    requires ReadsPipe(b, s, t) && t.Pipe?
    ensures ReadsExec(b, s, t.left) && e == s + |PrintExec(t.left)| && CharAt(b, e) == '|'
    ensures ReadsPipe(b, e + 1, t.right) && !Blank(CharAt(b, e + 1))
    ensures s + |PrintPipe(t)| == e + 1 + |PrintPipe(t.right)|
  {
    e := s + |PrintExec(t.left)|;
    var l, r := PrintExec(t.left), PrintPipe(t.right);
    assert PrintPipe(t) == l + (['|'] + r);
    OccursAround(b, s, l, '|', r);
    PipeHead(t.right);
    NothingSkipped(b, s + |l| + 1, r);
  }

  lemma NoPart(b: string, s: nat, t: Tree)
    requires ReadsPipe(b, s, t) && !t.Pipe?
    ensures ReadsExec(b, s, t) && PrintExec(t) == PrintPipe(t)
  {
  }

  /** The part of a line before its semicolon, and where it is over. */
  function Front(t: Tree): Tree { if t.List? then t.left else t }

  predicate EndsFront(b: string, e: nat) {
    e == |b| || (e < |b| && (b[e] == ')' || b[e] == ';'))
  }

  ghost predicate ReadsFront(b: string, s: nat, t: Tree) {
    Good(t) && Occurs(b, s, PrintBack(t)) && EndsFront(b, s + |PrintBack(t)|)
  }

  lemma FrontParts(b: string, s: nat, t: Tree)
    requires ReadsFront(b, s, t)
    ensures ReadsPipe(b, s, Core(t)) && s + |PrintPipe(Core(t))| + Depth(t) == s + |PrintBack(t)|
    ensures Occurs(b, s + |PrintPipe(Core(t))|, Amps(Depth(t)))
  {
    BackForm(t);
    var p, a := PrintPipe(Core(t)), Amps(Depth(t));
    OccursSplit(b, s, p, a);
    if Depth(t) > 0 {
      assert b[s + |p|] == a[0];
    }
  }

  lemma LineParts(b: string, s: nat, t: Tree)
    requires ReadsLine(b, s, t)
    ensures ReadsFront(b, s, Front(t))
    ensures var e := s + |PrintBack(Front(t))|;
            && (t.List? ==> CharAt(b, e) == ';' && ReadsLine(b, e + 1, t.right) && !Blank(CharAt(b, e + 1))
                            && s + |PrintLine(t)| == e + 1 + |PrintLine(t.right)|)
            && (!t.List? ==> e == s + |PrintLine(t)|)
  {
    if t.List? {
      var l, r := PrintBack(t.left), PrintLine(t.right);
      assert PrintLine(t) == l + ([';'] + r);
      OccursAround(b, s, l, ';', r);
      LineHead(t.right);
      NothingSkipped(b, s + |l| + 1, r);
    }
  }

  // -------------------------------------------------------- the command they make up

  /** A symbol with no blank after it. */
  lemma SymbolHere(b: string, ts: seq<Token>, i: nat, s: nat)
    requires At(b, ts, i, s) && s < |b| && Symbol(b[s]) && b[s] != '>' && !Blank(CharAt(b, s + 1))
    ensures Kind(ts, i, b[s]) && At(b, ts, i + 1, s + 1)
  {
    TokenHere(b, ts, i, s);
    SymbolRead(b, s, ts[i]);
  }

  lemma SimpleMade(b: string, s: nat, t: Tree, ts: seq<Token>, i: nat) returns (e: nat, j: nat, c: Cmd<Tok>)
    requires ReadsExec(b, s, t) && Base(t).Exec? && At(b, ts, i, s)
    ensures IsExec(ts, i, j, c) && Text(b, c) == t && At(b, ts, j, e) && e == s + |PrintExec(t)|
  {
    SimpleParts(b, s, t);
    var x;
    e, j, x := WordsMade(b, s, Base(t).args, 0, Outer(t), ts, i);
    c := Wrap(Exec(x.args), x.rs);
    assert Items(ts, i, j);
    TextWrap(b, Exec(x.args), x.rs);
    WrapOuter(t);
  }

  lemma {:induction false} ExecMade(b: string, s: nat, t: Tree, ts: seq<Token>, i: nat) returns (e: nat, j: nat,
                                    c: Cmd<Tok>)
    requires ReadsExec(b, s, t) && At(b, ts, i, s)
    ensures IsExec(ts, i, j, c) && Text(b, c) == t && At(b, ts, j, e) && e == s + |PrintExec(t)|
    decreases |b| - s, 1
  {
    if Base(t).Exec? {
      e, j, c := SimpleMade(b, s, t, ts, i);
    } else {
      var q := BlockParts(b, s, t);
      SymbolHere(b, ts, i, s);
      var p, m, d := LineMade(b, s + 1, Base(t), ts, i + 1);
      assert p == q;
      SymbolHere(b, ts, m, q);
      e, j, c := OuterMade(b, t, ts, i, m, d, q + 1);
    }
  }

  lemma OuterMade(b: string, t: Tree, ts: seq<Token>, i: nat, m: nat, d: Cmd<Tok>, s: nat)
    returns (e: nat, j: nat, c: Cmd<Tok>)
    requires Kind(ts, i, '(') && IsLine(ts, i + 1, m, d) && Text(b, d) == Base(t) && Kind(ts, m, ')')
    requires At(b, ts, m + 1, s) && SpellsRedirs(b, s, Outer(t), 0)
    ensures IsExec(ts, i, j, c) && Text(b, c) == t && At(b, ts, j, e) && e == s + |PrintRedirs(Outer(t), 0)|
  {
    var rs;
    e, j, rs := RedirsMade(b, s, Outer(t), 0, ts, m + 1);
    c := Wrap(d, rs);
    BlockMade(ts, i, m, d, j, rs);
    TextWrap(b, d, rs);
    WrapOuter(t);
  }

  lemma BlockMade(ts: seq<Token>, i: nat, m: nat, d: Cmd<Tok>, j: nat, rs: seq<Redirect<Tok>>)
    requires Kind(ts, i, '(') && IsLine(ts, i + 1, m, d) && Kind(ts, m, ')') && ReadItems(ts, m + 1, j, Simple([], rs))
    ensures IsExec(ts, i, j, Wrap(d, rs))
  {
    LineRange(ts, i + 1, m, d);
    assert Items(ts, m + 1, j);
    assert IsBlock(ts, i, m, j, d, Wrap(d, rs));
  }

  lemma {:induction false} PipeMade(b: string, s: nat, t: Tree, ts: seq<Token>, i: nat)
    returns (e: nat, j: nat, c: Cmd<Tok>)
    requires ReadsPipe(b, s, t) && At(b, ts, i, s)
    ensures IsPipe(ts, i, j, c) && Text(b, c) == t && At(b, ts, j, e) && e == s + |PrintPipe(t)|
    decreases |b| - s, 3
  {
    if t.Pipe? {
      e, j, c := TwoMade(b, s, t, ts, i);
    } else {
      NoPart(b, s, t);
      e, j, c := ExecMade(b, s, t, ts, i);
    }
  }

  lemma {:induction false} TwoMade(b: string, s: nat, t: Tree, ts: seq<Token>, i: nat)
    returns (e: nat, j: nat, c: Cmd<Tok>)
    requires ReadsPipe(b, s, t) && t.Pipe? && At(b, ts, i, s)
    ensures IsPipe(ts, i, j, c) && Text(b, c) == t && At(b, ts, j, e) && e == s + |PrintPipe(t)|
    decreases |b| - s, 2
  {
    var q := PipeParts(b, s, t);
    var p, m, l := ExecMade(b, s, t.left, ts, i);
    assert p == q;
    SymbolHere(b, ts, m, q);
    var r;
    e, j, r := PipeMade(b, q + 1, t.right, ts, m + 1);
    PipeJoin(ts, i, m, l, j, r);
    c := Pipe(l, r);
  }

  lemma {:induction false} AmpsMade(b: string, s: nat, n: nat, ts: seq<Token>, i: nat)
    requires Occurs(b, s, Amps(n)) && EndsFront(b, s + n) && At(b, ts, i, s)
    ensures At(b, ts, i + n, s + n) && forall k :: i <= k < i + n ==> Kind(ts, k, '&')
    decreases n
  {
    if n > 0 {
      assert b[s] == Amps(n)[0];
      assert n > 1 ==> b[s + 1] == Amps(n)[1];
      SymbolHere(b, ts, i, s);
      var rest := Amps(n - 1);
      forall k {:trigger rest[k]} | 0 <= k < n - 1 ensures b[s + 1 + k] == rest[k] {
        assert b[s + (k + 1)] == Amps(n)[k + 1];
      }
      AmpsMade(b, s + 1, n - 1, ts, i + 1);
    }
  }

  lemma {:induction false} TextBacked(b: string, c: Cmd<Tok>, n: nat)
    ensures Text(b, Backed(c, n)) == Backed(Text(b, c), n)
  {
    if n > 0 {
      TextBacked(b, c, n - 1);
    }
  }

  lemma FrontMade(b: string, s: nat, t: Tree, ts: seq<Token>, i: nat) returns (e: nat, j: nat, c: Cmd<Tok>)
    requires ReadsFront(b, s, t) && At(b, ts, i, s)
    ensures IsFront(ts, i, j, c) && Text(b, c) == t && At(b, ts, j, e) && e == s + |PrintBack(t)|
    decreases |b| - s, 4
  {
    FrontParts(b, s, t);
    BackForm(t);
    var q, m, p := PipeMade(b, s, Core(t), ts, i);
    AmpsMade(b, q, Depth(t), ts, m);
    e, j, c := q + Depth(t), m + Depth(t), Backed(p, Depth(t));
    PipeRange(ts, i, m, p);
    BacksFront(ts, i, m, p, j);
    TextBacked(b, p, Depth(t));
  }

  lemma {:induction false} LineMade(b: string, s: nat, t: Tree, ts: seq<Token>, i: nat) returns (e: nat, j: nat,
                                    c: Cmd<Tok>)
    requires ReadsLine(b, s, t) && At(b, ts, i, s)
    ensures IsLine(ts, i, j, c) && Text(b, c) == t && At(b, ts, j, e) && e == s + |PrintLine(t)|
    decreases |b| - s, 5
  {
    LineParts(b, s, t);
    var p, m, l := FrontMade(b, s, Front(t), ts, i);
    if t.List? {
      SymbolHere(b, ts, m, p);
      var r;
      e, j, r := LineMade(b, p + 1, t.right, ts, m + 1);
      LineJoin(ts, i, m, l, j, r);
      c := List(l, r);
    } else {
      e, j, c := p, m, l;
    }
  }

  /** The tokens of a command's text make up that command, and no other. */
  lemma PrintedMade(t: Tree, ts: seq<Token>, c: Cmd<Tok>)
    requires Good(t) && At(PrintLine(t), ts, 0, 0)
    ensures exists d :: IsLine(ts, 0, |ts|, d)
    ensures IsLine(ts, 0, |ts|, c) ==> Text(PrintLine(t), c) == t
  {
    var b := PrintLine(t);
    LinePrinted(t);
    var e, j, d := LineMade(b, 0, t, ts, 0);
    Peek(b, ts, j, e);
    if IsLine(ts, 0, |ts|, c) {
      LineOnce(ts, 0, |ts|, c, |ts|, d);
    }
  }

  // ------------------------------------------------------------- words of the line

  lemma {:induction false} ItemsCut(b: string, ts: seq<Token>, i: nat, j: nat)
    requires WordTokens(b, ts) && Items(ts, i, j)
    ensures CutWords(b, ArgsOf(ts, i, j)) && CutAll(b, RedirsOf(ts, i, j))
    decreases j - i
  {
    if i < j {
      ItemsCut(b, ts, if ts[i].kind == 'a' then i + 1 else i + 2, j);
    }
  }

  ghost predicate WordTokens(b: string, ts: seq<Token>) {
    forall k {:trigger ts[k]} :: 0 <= k < |ts| && ts[k].kind == 'a' ==> WordAt(b, WordOf(ts[k]))
  }

  lemma LexedWords(b: string, ts: seq<Token>)
    requires At(b, ts, 0, 0)
    ensures WordTokens(b, ts)
  {
    forall k | 0 <= k < |ts| && ts[k].kind == 'a' ensures WordAt(b, WordOf(ts[k])) {
      assert Here(b, ts, 0, 0);
      assert k > 0 ==> Linked(b, ts, k - 1);
    }
  }

  lemma {:induction false} ExecCut(b: string, ts: seq<Token>, i: nat, j: nat, c: Cmd<Tok>)
    requires WordTokens(b, ts) && IsExec(ts, i, j, c)
    ensures Cut(b, c)
    decreases j - i, 1
  {
    if IsSimple(ts, i, j, c) {
      ItemsCut(b, ts, i, j);
      CutWrap(b, Exec(ArgsOf(ts, i, j)), RedirsOf(ts, i, j));
    } else {
      var m: nat, d :| i < j && IsBlock(ts, i, m, j, d, c);
      LineCut(b, ts, i + 1, m, d);
      ItemsCut(b, ts, m + 1, j);
      CutWrap(b, d, RedirsOf(ts, m + 1, j));
    }
  }

  lemma {:induction false} PipeCut(b: string, ts: seq<Token>, i: nat, j: nat, c: Cmd<Tok>)
    requires WordTokens(b, ts) && IsPipe(ts, i, j, c)
    ensures Cut(b, c)
    decreases j - i, 2
  {
    if IsExec(ts, i, j, c) {
      ExecCut(b, ts, i, j, c);
    } else {
      var m :| i <= m < j && Kind(ts, m, '|') && IsExec(ts, i, m, c.left) && IsPipe(ts, m + 1, j, c.right);
      ExecCut(b, ts, i, m, c.left);
      PipeCut(b, ts, m + 1, j, c.right);
    }
  }

  lemma {:induction false} FrontCut(b: string, ts: seq<Token>, i: nat, j: nat, c: Cmd<Tok>)
    requires WordTokens(b, ts) && IsFront(ts, i, j, c)
    ensures Cut(b, c)
    decreases j - i, 3
  {
    if IsPipe(ts, i, j, c) {
      PipeCut(b, ts, i, j, c);
    } else {
      FrontCut(b, ts, i, j - 1, c.cmd);
    }
  }

  /** The words of a command are maximal runs of word characters of the line. */
  lemma {:induction false} LineCut(b: string, ts: seq<Token>, i: nat, j: nat, c: Cmd<Tok>)
    requires WordTokens(b, ts) && IsLine(ts, i, j, c)
    ensures Cut(b, c)
    decreases j - i, 4
  {
    if IsFront(ts, i, j, c) {
      FrontCut(b, ts, i, j, c);
    } else {
      var m :| i <= m < j && Kind(ts, m, ';') && IsFront(ts, i, m, c.left) && IsLine(ts, m + 1, j, c.right);
      FrontCut(b, ts, i, m, c.left);
      LineCut(b, ts, m + 1, j, c.right);
    }
  }

  // ------------------------------------------------------ what an arrow says

  /** The last character before q that is not blank, NUL if there is none. */
  function InkBefore(b: string, q: nat): char
    requires q <= |b|
  {
    if q == 0 then NUL else if Blank(b[q - 1]) then InkBefore(b, q - 1) else b[q - 1]
  }

  /** The file of a redirection stands behind an arrow of the line. */
  ghost predicate DirectedBy(b: string, r: Redirect<Tok>) {
    r.file.q <= |b| && InkBefore(b, r.file.q) == if r.out then '>' else '<'
  }

  ghost predicate Undirected(b: string, t: Tok) {
    t.q <= |b| && InkBefore(b, t.q) != '<' && InkBefore(b, t.q) != '>'
  }

  /** In all of the command: a file stands behind an arrow, which is one of output exactly
      if the redirection is; an argument does not stand behind an arrow, and argv has room
      for the arguments and the 0 after them. */
  ghost predicate Directed(b: string, c: Cmd<Tok>) {
    match c
    case Exec(args) => |args| < MAXARGS && forall i :: 0 <= i < |args| ==> Undirected(b, args[i])
    case Redir(d, f, out) => Directed(b, d) && DirectedBy(b, Redirect(f, out))
    case Pipe(l, r) => Directed(b, l) && Directed(b, r)
    case List(l, r) => Directed(b, l) && Directed(b, r)
    case Back(d) => Directed(b, d)
  }

  lemma {:induction false} DirectedWrap(b: string, c: Cmd<Tok>, rs: seq<Redirect<Tok>>)
    requires Directed(b, c) && forall i :: 0 <= i < |rs| ==> DirectedBy(b, rs[i])
    ensures Directed(b, Wrap(c, rs))
    decreases |rs|
  {
    if rs != [] {
      DirectedWrap(b, c, rs[..|rs| - 1]);
      assert rs[|rs| - 1] == Redirect(rs[|rs| - 1].file, rs[|rs| - 1].out);
    }
  }

  lemma {:induction false} InkOverGap(b: string, s: nat, q: nat)
    requires s <= q <= |b| && forall i :: s <= i < q ==> Blank(b[i])
    ensures InkBefore(b, q) == InkBefore(b, s)
    decreases q
  {
    if s < q {
      InkOverGap(b, s, q - 1);
    }
  }

  /** The last character of a token tells whether it is an arrow, and which. */
  lemma TokenInk(b: string, s: nat, t: Token)
    requires TokenAt(b, s, t) && t.kind != NUL
    ensures t.eq <= t.next <= |b| && InkBefore(b, t.next) == InkBefore(b, t.eq)
    ensures IsArrow(t.kind) <==> InkBefore(b, t.eq) == '<' || InkBefore(b, t.eq) == '>'
    ensures IsArrow(t.kind) ==> (t.kind == '<' <==> InkBefore(b, t.eq) == '<')
  {
    InkOverGap(b, t.eq, t.next);
    assert InkBefore(b, t.eq) == b[t.eq - 1];
  }

  /** What stands before token k, where the token before it, if any, ends at s. */
  lemma InkAt(b: string, s: nat, t: Token)
    requires TokenAt(b, s, t)
    ensures t.q <= |b| && InkBefore(b, t.q) == InkBefore(b, s)
  {
    InkOverGap(b, s, t.q);
  }

  /** The character before token k is that of an arrow exactly if token k - 1 is one. */
  ghost predicate Inked(b: string, ts: seq<Token>, k: nat)
    requires k < |ts|
  {
    && ts[k].q <= |b|
    && var c := InkBefore(b, ts[k].q);
       if k > 0 && IsArrow(ts[k - 1].kind) then c == if ts[k - 1].kind == '<' then '<' else '>'
       else c != '<' && c != '>'
  }

  lemma LexedInk(b: string, ts: seq<Token>, k: nat)
    requires At(b, ts, 0, 0) && k < |ts|
    ensures Inked(b, ts, k)
  {
    assert Here(b, ts, 0, 0);
    if k == 0 {
      InkAt(b, 0, ts[0]);
    } else {
      assert Linked(b, ts, k - 1);
      InkAt(b, ts[k - 1].next, ts[k]);
      assert k > 1 ==> Linked(b, ts, k - 2);
      TokenInk(b, if k == 1 then 0 else ts[k - 2].next, ts[k - 1]);
    }
  }

  ghost predicate AllInked(b: string, ts: seq<Token>) {
    forall k {:trigger Inked(b, ts, k)} :: 0 <= k < |ts| ==> Inked(b, ts, k)
  }

  /** Token i is not behind an arrow. */
  predicate Starts(ts: seq<Token>, i: nat) {
    i <= |ts| && (i > 0 ==> !IsArrow(ts[i - 1].kind))
  }

  lemma {:induction false} ItemsDirected(b: string, ts: seq<Token>, i: nat, j: nat)
    requires AllInked(b, ts) && Items(ts, i, j) && Starts(ts, i)
    ensures forall k :: 0 <= k < |ArgsOf(ts, i, j)| ==> Undirected(b, ArgsOf(ts, i, j)[k])
    ensures forall k :: 0 <= k < |RedirsOf(ts, i, j)| ==> DirectedBy(b, RedirsOf(ts, i, j)[k])
    decreases j - i
  {
    if i < j {
      if ts[i].kind == 'a' {
        assert Inked(b, ts, i);
        ItemsDirected(b, ts, i + 1, j);
      } else {
        assert Inked(b, ts, i + 1);
        ItemsDirected(b, ts, i + 2, j);
      }
    }
  }

  lemma {:induction false} ExecDirected(b: string, ts: seq<Token>, i: nat, j: nat, c: Cmd<Tok>)
    requires AllInked(b, ts) && IsExec(ts, i, j, c) && Starts(ts, i)
    ensures Directed(b, c)
    decreases j - i, 1
  {
    if IsSimple(ts, i, j, c) {
      ItemsDirected(b, ts, i, j);
      DirectedWrap(b, Exec(ArgsOf(ts, i, j)), RedirsOf(ts, i, j));
    } else {
      var m: nat, d :| i < j && IsBlock(ts, i, m, j, d, c);
      LineDirected(b, ts, i + 1, m, d);
      ItemsDirected(b, ts, m + 1, j);
      DirectedWrap(b, d, RedirsOf(ts, m + 1, j));
    }
  }

  lemma {:induction false} PipeDirected(b: string, ts: seq<Token>, i: nat, j: nat, c: Cmd<Tok>)
    requires AllInked(b, ts) && IsPipe(ts, i, j, c) && Starts(ts, i)
    ensures Directed(b, c)
    decreases j - i, 2
  {
    if IsExec(ts, i, j, c) {
      ExecDirected(b, ts, i, j, c);
    } else {
      var m :| i <= m < j && Kind(ts, m, '|') && IsExec(ts, i, m, c.left) && IsPipe(ts, m + 1, j, c.right);
      ExecDirected(b, ts, i, m, c.left);
      PipeDirected(b, ts, m + 1, j, c.right);
    }
  }

  lemma {:induction false} FrontDirected(b: string, ts: seq<Token>, i: nat, j: nat, c: Cmd<Tok>)
    requires AllInked(b, ts) && IsFront(ts, i, j, c) && Starts(ts, i)
    ensures Directed(b, c)
    decreases j - i, 3
  {
    if IsPipe(ts, i, j, c) {
      PipeDirected(b, ts, i, j, c);
    } else {
      FrontDirected(b, ts, i, j - 1, c.cmd);
    }
  }

  /** In a command the tokens make up, a redirection is one of output exactly if its file
      stands behind a '>' on the line, one of input behind a '<'. */
  lemma {:induction false} LineDirected(b: string, ts: seq<Token>, i: nat, j: nat, c: Cmd<Tok>)
    requires AllInked(b, ts) && IsLine(ts, i, j, c) && Starts(ts, i)
    ensures Directed(b, c)
    decreases j - i, 4
  {
    if IsFront(ts, i, j, c) {
      FrontDirected(b, ts, i, j, c);
    } else {
      var m :| i <= m < j && Kind(ts, m, ';') && IsFront(ts, i, m, c.left) && IsLine(ts, m + 1, j, c.right);
      FrontDirected(b, ts, i, m, c.left);
      LineDirected(b, ts, m + 1, j, c.right);
    }
  }
}
