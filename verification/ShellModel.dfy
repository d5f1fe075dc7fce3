/** The shell's command language: tokens, command trees, and the parser as functions on
  positions of the input line. The line is a C string without its terminating NUL.
 */
module ShellModel {
  import opened Common

  const MAXARGS: nat := 10
  const NUL: char := '\0'

  predicate Blank(c: char) { c == ' ' || c == '\t' || c == '\r' || c == '\n' || c == '\U{000B}' }

  predicate Symbol(c: char) { c == '<' || c == '|' || c == '>' || c == '&' || c == ';' || c == '(' || c == ')' }

  predicate WordChar(c: char) { !Blank(c) && !Symbol(c) && c != NUL }

  /** No NUL before the end. */
  predicate Line(b: string) { forall i :: 0 <= i < |b| ==> b[i] != NUL }

  /** A command over words W: pieces of the line, or strings. The shell's redirections
      write (fd 1) or read (fd 0). */
  datatype Cmd<W> =
    | Exec(args: seq<W>)
    | Redir(cmd: Cmd<W>, file: W, out: bool)
    | Pipe(left: Cmd<W>, right: Cmd<W>)
    | List(left: Cmd<W>, right: Cmd<W>)
    | Back(cmd: Cmd<W>)

  datatype Redirect<W> = Redirect(file: W, out: bool)

  /** Redirections in the order they were read, the last one outermost. */
  function Wrap<W>(c: Cmd<W>, rs: seq<Redirect<W>>): Cmd<W> {
    if rs == [] then c
    else Redir(Wrap(c, rs[..|rs| - 1]), rs[|rs| - 1].file, rs[|rs| - 1].out)
  }

  /** In the background, once for each of n ampersands. */
  function Backed<W>(c: Cmd<W>, n: nat): Cmd<W> {
    if n == 0 then c else Back(Backed(c, n - 1))
  }

  /** The word b[q..eq]. */
  datatype Tok = Tok(q: nat, eq: nat)

  function CharAt(b: string, s: nat): char {
    if s < |b| then b[s] else NUL
  }

  /** A maximal run of word characters. */
  ghost predicate WordAt(b: string, t: Tok) {
    && t.q < t.eq <= |b| && (forall i :: t.q <= i < t.eq ==> WordChar(b[i]))
    && (t.eq < |b| ==> !WordChar(b[t.eq]))
  }

  /** Nothing but blanks from s to q, and no blank at q. */
  ghost predicate Gap(b: string, s: nat, q: nat) {
    s <= q <= |b| && (forall i :: s <= i < q ==> Blank(b[i])) && !Blank(CharAt(b, q))
  }

  /** kind is NUL at the end, 'a' for a word, '+' for >>, else the symbol. */
  datatype Token = Token(kind: char, q: nat, eq: nat, next: nat)

  /** t is the token found from s on, with the blanks around it skipped. */
  ghost predicate TokenAt(b: string, s: nat, t: Token) {
    && Gap(b, s, t.q) && Gap(b, t.eq, t.next)
    && var c := CharAt(b, t.q);
       if t.q == |b| then t.kind == NUL && t.eq == t.q
       else if c == '>' && CharAt(b, t.q + 1) == '>' then t.kind == '+' && t.eq == t.q + 2
       else if Symbol(c) then t.kind == c && t.eq == t.q + 1
       else t.kind == 'a' && WordAt(b, Tok(t.q, t.eq))
  }

  /** An execcmd being filled: its words, and the redirections around it. */
  datatype Simple = Simple(args: seq<Tok>, rs: seq<Redirect<Tok>>)

  datatype Error = Syntax | MissingFile | MissingParen | TooManyArgs

  datatype Result<T> = Ok(value: T, pos: nat) | Err(error: Error)

  predicate Stops(c: char) { c == '|' || c == ')' || c == '&' || c == ';' }

  // ----------------------------------------------------------- words of a command

  function Word(b: string, t: Tok): string {
    if t.q <= t.eq <= |b| then b[t.q..t.eq] else ""
  }

  function Words(b: string, ts: seq<Tok>): seq<string> {
    seq(|ts|, i requires 0 <= i < |ts| => Word(b, ts[i]))
  }

  function Redirects(b: string, rs: seq<Redirect<Tok>>): seq<Redirect<string>> {
    seq(|rs|, i requires 0 <= i < |rs| => Redirect(Word(b, rs[i].file), rs[i].out))
  }

  /** The command with its pieces of the line read out. */
  function Text(b: string, c: Cmd<Tok>): Cmd<string> {
    match c
    case Exec(args) => Exec(Words(b, args))
    case Redir(d, f, out) => Redir(Text(b, d), Word(b, f), out)
    case Pipe(l, r) => Pipe(Text(b, l), Text(b, r))
    case List(l, r) => List(Text(b, l), Text(b, r))
    case Back(d) => Back(Text(b, d))
  }

  /** Every word of the command is a maximal run of word characters of the line. */
  ghost predicate Cut(b: string, c: Cmd<Tok>) {
    match c
    case Exec(args) => CutWords(b, args)
    case Redir(d, f, _) => Cut(b, d) && WordAt(b, f)
    case Pipe(l, r) => Cut(b, l) && Cut(b, r)
    case List(l, r) => Cut(b, l) && Cut(b, r)
    case Back(d) => Cut(b, d)
  }

  ghost predicate CutWords(b: string, ts: seq<Tok>) {
    forall i :: 0 <= i < |ts| ==> WordAt(b, ts[i])
  }

  ghost predicate CutAll(b: string, rs: seq<Redirect<Tok>>) {
    forall i :: 0 <= i < |rs| ==> WordAt(b, rs[i].file)
  }

  lemma {:induction false} CutWrap(b: string, c: Cmd<Tok>, rs: seq<Redirect<Tok>>)
    requires Cut(b, c) && CutAll(b, rs)
    ensures Cut(b, Wrap(c, rs))
    decreases |rs|
  {
    if rs != [] {
      CutWrap(b, c, rs[..|rs| - 1]);
    }
  }

  lemma {:induction false} TextWrap(b: string, c: Cmd<Tok>, rs: seq<Redirect<Tok>>)
    ensures Text(b, Wrap(c, rs)) == Wrap(Text(b, c), Redirects(b, rs))
    decreases |rs|
  {
    if rs != [] {
      TextWrap(b, c, rs[..|rs| - 1]);
      assert Redirects(b, rs)[..|Redirects(b, rs)| - 1] == Redirects(b, rs[..|rs| - 1]);
    }
  }
}
