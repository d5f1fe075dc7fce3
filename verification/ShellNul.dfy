/** parsecmd on the shell's line buffer: the words of the command it returns are C strings
  in that buffer.
 */
module ShellNul {
  import opened ShellModel
  import opened ShellPrint
  import opened ShellCode
  import opened ShellGrammar
  import opened ShellRead

  /** nulterminate writes a NUL at k: some word of c ends there. */
  predicate EndsAt(c: Cmd<Tok>, k: nat) {
    match c
    case Exec(args) => exists i :: 0 <= i < |args| && args[i].eq == k
    case Redir(d, f, _) => EndsAt(d, k) || f.eq == k
    case Pipe(l, r) => EndsAt(l, k) || EndsAt(r, k)
    case List(l, r) => EndsAt(l, k) || EndsAt(r, k)
    case Back(d) => EndsAt(d, k)
  }

  predicate InBuffer(c: Cmd<Tok>, n: nat) {
    match c
    case Exec(args) => forall i :: 0 <= i < |args| ==> args[i].eq < n
    case Redir(d, f, _) => InBuffer(d, n) && f.eq < n
    case Pipe(l, r) => InBuffer(l, n) && InBuffer(r, n)
    case List(l, r) => InBuffer(l, n) && InBuffer(r, n)
    case Back(d) => InBuffer(d, n)
  }

  method Nulterminate(buf: array<char>, c: Cmd<Tok>)
    requires InBuffer(c, buf.Length)
    modifies buf
    ensures forall k :: 0 <= k < buf.Length ==> buf[k] == if EndsAt(c, k) then NUL else old(buf[k])
    decreases c
  {
    match c
    case Exec(args) =>
      for i := 0 to |args|
        invariant forall k :: 0 <= k < buf.Length ==>
                    buf[k] == if exists j :: 0 <= j < i && args[j].eq == k then NUL else old(buf[k])
      {
        buf[args[i].eq] := NUL;
      }
    case Redir(d, f, _) =>
      Nulterminate(buf, d);
      buf[f.eq] := NUL;
    case Pipe(l, r) =>
      Nulterminate(buf, l);
      Nulterminate(buf, r);
    case List(l, r) =>
      Nulterminate(buf, l);
      Nulterminate(buf, r);
    case Back(d) =>
      Nulterminate(buf, d);
  }

  // --------------------------------------------------------------------- C strings

  /** The C string that starts at q. */
  function CString(buf: seq<char>, q: nat): string
    decreases |buf| - q
  {
    if q >= |buf| || buf[q] == NUL then "" else [buf[q]] + CString(buf, q + 1)
  }

  lemma {:induction false} CStringIs(buf: seq<char>, b: string, q: nat, eq: nat)
    requires q <= eq <= |b| < |buf| && buf[eq] == NUL
    requires forall i :: q <= i < eq ==> buf[i] == b[i] != NUL
    ensures CString(buf, q) == b[q..eq]
    decreases eq - q
  {
    if q < eq {
      CStringIs(buf, b, q + 1, eq);
      assert b[q..eq] == [b[q]] + b[q + 1..eq];
    }
  }

  /** The command as execution sees it: a word is the C string its pointer leads to. */
  function CWords(buf: seq<char>, ts: seq<Tok>): seq<string> {
    seq(|ts|, i requires 0 <= i < |ts| => CString(buf, ts[i].q))
  }

  function CText(buf: seq<char>, c: Cmd<Tok>): Cmd<string> {
    match c
    case Exec(args) => Exec(CWords(buf, args))
    case Redir(d, f, out) => Redir(CText(buf, d), CString(buf, f.q), out)
    case Pipe(l, r) => Pipe(CText(buf, l), CText(buf, r))
    case List(l, r) => List(CText(buf, l), CText(buf, r))
    case Back(d) => Back(CText(buf, d))
  }

  /** NULs were written only where b has no word character. */
  ghost predicate Terminated(b: string, buf: seq<char>) {
    |buf| == |b| + 1 && Line(b) && buf[|b|] == NUL
    && forall k :: 0 <= k < |b| ==> buf[k] == b[k] || (buf[k] == NUL && !WordChar(b[k]))
  }

  /** Then a word with a NUL after it is intact. */
  lemma WordIntact(b: string, buf: seq<char>, t: Tok)
    requires Terminated(b, buf) && WordAt(b, t) && buf[t.eq] == NUL
    ensures CString(buf, t.q) == Word(b, t)
  {
    CStringIs(buf, b, t.q, t.eq);
  }

  /** c is part of a command all of whose ends have been marked. */
  ghost predicate Marked(buf: seq<char>, c: Cmd<Tok>) {
    forall k: nat :: k < |buf| && EndsAt(c, k) ==> buf[k] == NUL
  }

  lemma WordsIntact(b: string, buf: seq<char>, ts: seq<Tok>)
    requires Terminated(b, buf) && CutWords(b, ts)
    requires forall i :: 0 <= i < |ts| ==> ts[i].eq < |buf| && buf[ts[i].eq] == NUL
    ensures CWords(buf, ts) == Words(b, ts)
  {
    forall i | 0 <= i < |ts| ensures CString(buf, ts[i].q) == Word(b, ts[i]) {
      WordIntact(b, buf, ts[i]);
    }
  }

  lemma {:induction false} CutInBuffer(b: string, c: Cmd<Tok>)
    requires Cut(b, c)
    ensures InBuffer(c, |b| + 1)
    ensures forall k: nat :: EndsAt(c, k) && k < |b| ==> !WordChar(b[k])
    decreases c
  {
    match c
    case Exec(_) =>
    case Redir(d, _, _) => CutInBuffer(b, d);
    case Pipe(l, r) =>
      CutInBuffer(b, l);
      CutInBuffer(b, r);
    case List(l, r) =>
      CutInBuffer(b, l);
      CutInBuffer(b, r);
    case Back(d) => CutInBuffer(b, d);
  }

  /** No terminator lands inside another word: all words are as they were on the line. */
  lemma {:induction false} AllIntact(b: string, buf: seq<char>, c: Cmd<Tok>)
    requires Terminated(b, buf) && Cut(b, c) && Marked(buf, c)
    ensures CText(buf, c) == Text(b, c)
    decreases c
  {
    match c
    case Exec(args) =>
      forall i | 0 <= i < |args| ensures args[i].eq < |buf| && buf[args[i].eq] == NUL {
        assert EndsAt(c, args[i].eq);
      }
      WordsIntact(b, buf, args);
    case Redir(d, f, _) =>
      assert EndsAt(c, f.eq);
      AllIntact(b, buf, d);
      WordIntact(b, buf, f);
    case Pipe(l, r) =>
      AllIntact(b, buf, l);
      AllIntact(b, buf, r);
    case List(l, r) =>
      AllIntact(b, buf, l);
      AllIntact(b, buf, r);
    case Back(d) => AllIntact(b, buf, d);
  }

  /** parsecmd: buf holds the line b and its NUL. */
  method Parsecmd(buf: array<char>, b: string) returns (r: Result<Cmd<Tok>>, ghost ts: seq<Token>)
    requires Line(b) && buf[..] == b + [NUL]
    modifies buf
    ensures Lexed(b, ts) && Here(b, ts, 0, 0)
    ensures if r.Ok? then IsLine(ts, 0, |ts|, r.value) else forall c :: !IsLine(ts, 0, |ts|, c)
    ensures r.Ok? ==> CText(buf[..], r.value) == Text(b, r.value) && Directed(b, r.value)
    ensures r.Err? ==> buf[..] == b + [NUL]
    ensures forall t :: Good(t) && b == PrintLine(t) ==> r.Ok? && CText(buf[..], r.value) == t
  {
    r, ts := ParseCmd(b);
    if r.Ok? {
      Terminate(buf, b, r.value);
    }
  }

  method Terminate(buf: array<char>, b: string, c: Cmd<Tok>)
    requires Line(b) && buf[..] == b + [NUL] && Cut(b, c)
    modifies buf
    ensures CText(buf[..], c) == Text(b, c)
  {
    assert buf.Length == |buf[..]| == |b| + 1;
    forall k | 0 <= k < |b| ensures buf[k] == b[k] {
      assert buf[k] == buf[..][k] == (b + [NUL])[k];
    }
    assert buf[|b|] == buf[..][|b|] == NUL;
    CutInBuffer(b, c);
    Nulterminate(buf, c);
    AllIntact(b, buf[..], c);
  }
}
