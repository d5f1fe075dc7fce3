/** The regular expression matcher of grep against what its patterns mean.
  Strings are C strings without their terminating NUL.
 */
module Grep {

  /** The parts of a pattern: a character or '.', starred or not, and a final '$'. */
  datatype Item = One(c: char) | Star(c: char) | End

  /** A '*' after a character stars it; anywhere else it stands for itself, as '$' does
      before the end. */
  function Items(re: string): seq<Item> {
    if re == "" then []
    else if |re| >= 2 && re[1] == '*' then [Star(re[0])] + Items(re[2..])
    else if re == "$" then [End]
    else [One(re[0])] + Items(re[1..])
  }

  predicate Fits(c: char, x: char) {
    c == '.' || c == x
  }

  /** w is a word of the pattern, when `rest` characters of the text come after it. */
  predicate Word(items: seq<Item>, w: string, rest: nat) {
    if items == [] then w == ""
    else match items[0]
      case One(c) => w != "" && Fits(c, w[0]) && Word(items[1..], w[1..], rest)
      case Star(c) =>
        exists k :: 0 <= k <= |w| && (forall j :: 0 <= j < k ==> Fits(c, w[j])) && Word(items[1..], w[k..], rest)
      case End => w == "" && rest == 0 && Word(items[1..], w, rest)
  }

  /** The pattern matches text[i..i + n]. */
  predicate At(items: seq<Item>, text: string, i: nat, n: nat) {
    i + n <= |text| && Word(items, text[i..i + n], |text| - i - n)
  }

  /** The pattern matches a prefix of the text. */
  predicate Prefix(items: seq<Item>, text: string) {
    exists n: nat :: n <= |text| && At(items, text, 0, n)
  }

  /** The pattern matches somewhere in the text; after '^', at its start. */
  predicate Found(re: string, text: string) {
    if re != "" && re[0] == '^' then Prefix(Items(re[1..]), text)
    else exists i: nat, n: nat :: i <= |text| && n <= |text| - i && At(Items(re), text, i, n)
  }

  // ---------------------------------------------------------- matching a prefix

  lemma PrefixEmpty(text: string)
    ensures Prefix([], text)
  {
    assert At([], text, 0, 0);
  }

  lemma PrefixEnd(text: string)
    ensures Prefix([End], text) <==> text == ""
  {
    assert [End][1..] == [];
    if text == "" {
      assert Word([End], "", 0);
      assert At([End], text, 0, 0);
    }
  }

  lemma PrefixOne(c: char, items: seq<Item>, text: string)
    ensures Prefix([One(c)] + items, text) <==> text != "" && Fits(c, text[0]) && Prefix(items, text[1..])
  {
    var all := [One(c)] + items;
    assert all[1..] == items;
    if Prefix(all, text) {
      var n: nat :| n <= |text| && At(all, text, 0, n);
      assert text[0..n][1..] == text[1..][0..n - 1];
      assert At(items, text[1..], 0, n - 1);
    }
    if text != "" && Fits(c, text[0]) && Prefix(items, text[1..]) {
      var n: nat :| n <= |text[1..]| && At(items, text[1..], 0, n);
      assert text[0..n + 1][1..] == text[1..][0..n];
      assert At(all, text, 0, n + 1);
    }
  }

  lemma StarSplits(c: char, items: seq<Item>, text: string, n: nat) returns (k: nat)
    requires n <= |text| && At([Star(c)] + items, text, 0, n)
    ensures k <= |text| && (forall j :: 0 <= j < k ==> Fits(c, text[j])) && Prefix(items, text[k..])
  {
    assert ([Star(c)] + items)[1..] == items;
    var w := text[0..n];
    k :| 0 <= k <= |w| && (forall j :: 0 <= j < k ==> Fits(c, w[j])) && Word(items, w[k..], |text| - n);
    assert forall j :: 0 <= j < k ==> text[j] == w[j];
    assert w[k..] == text[k..][0..n - k];
    assert At(items, text[k..], 0, n - k);
  }

  lemma StarJoins(c: char, items: seq<Item>, text: string, k: nat)
    requires k <= |text| && (forall j :: 0 <= j < k ==> Fits(c, text[j])) && Prefix(items, text[k..])
    ensures Prefix([Star(c)] + items, text)
  {
    assert ([Star(c)] + items)[1..] == items;
    var n: nat :| n <= |text[k..]| && At(items, text[k..], 0, n);
    var w := text[0..k + n];
    assert w[k..] == text[k..][0..n];
    assert forall j :: 0 <= j < k ==> w[j] == text[j];
    assert At([Star(c)] + items, text, 0, k + n);
  }

  /** A starred character followed by items: some number of characters that fit, then items. */
  lemma PrefixStar(c: char, items: seq<Item>, text: string)
    ensures Prefix([Star(c)] + items, text) <==>
            exists k: nat :: k <= |text| && (forall j :: 0 <= j < k ==> Fits(c, text[j])) && Prefix(items, text[k..])
  {
    if Prefix([Star(c)] + items, text) {
      var n: nat :| n <= |text| && At([Star(c)] + items, text, 0, n);
      var k := StarSplits(c, items, text, n);
    }
    if k: nat :| k <= |text| && (forall j :: 0 <= j < k ==> Fits(c, text[j])) && Prefix(items, text[k..]) {
      StarJoins(c, items, text, k);
    }
  }

  lemma PrefixFrom(items: seq<Item>, text: string, i: nat)
    requires i <= |text|
    ensures Prefix(items, text[i..]) <==> exists n: nat :: n <= |text| - i && At(items, text, i, n)
  {
    forall n: nat | n <= |text| - i ensures At(items, text, i, n) <==> At(items, text[i..], 0, n) {
      assert text[i..][0..n] == text[i..i + n];
    }
  }

  // ------------------------------------------------------------------ the code

  method MatchHere(re: string, text: string) returns (r: bool)
    ensures r <==> Prefix(Items(re), text)
    decreases |re|, 0
  {
    if re == "" {
      PrefixEmpty(text);
      return true;
    }
    if |re| >= 2 && re[1] == '*' {
      r := MatchStar(re[0], re[2..], text);
      return;
    }
    if re == "$" {
      PrefixEnd(text);
      return text == "";
    }
    PrefixOne(re[0], Items(re[1..]), text);
    if text != "" && (re[0] == '.' || re[0] == text[0]) {
      r := MatchHere(re[1..], text[1..]);
      return;
    }
    return false;
  }

  method MatchStar(c: char, re: string, text: string) returns (r: bool)
    ensures r <==> Prefix([Star(c)] + Items(re), text)
    decreases |re|, 1
  {
    PrefixStar(c, Items(re), text);
    var t := 0;
    while true
      invariant 0 <= t <= |text|
      invariant forall j :: 0 <= j < t ==> Fits(c, text[j])
      invariant forall k: nat :: k < t ==> !Prefix(Items(re), text[k..])
      decreases |text| - t
    {
      r := MatchHere(re, text[t..]);
      if r {
        return;
      }
      if t == |text| {
        break;
      }
      if text[t] != c && c != '.' {
        break;
      }
      t := t + 1;
    }
  }

  method Match(re: string, text: string) returns (r: bool)
    ensures r <==> Found(re, text)
  {
    if re != "" && re[0] == '^' {
      r := MatchHere(re[1..], text);
      return;
    }
    var t := 0;
    while true
      invariant 0 <= t <= |text|
      invariant forall i: nat, n: nat :: i < t && n <= |text| - i ==> !At(Items(re), text, i, n)
      decreases |text| - t
    {
      r := MatchHere(re, text[t..]);
      PrefixFrom(Items(re), text, t);
      if r {
        return;
      }
      if t == |text| {
        break;
      }
      t := t + 1;
    }
  }

  // ---------------------------------------------------- the reading of patterns

  /** The pattern that writes a list of items. */
  function Show(items: seq<Item>): string {
    if items == [] then ""
    else match items[0]
      case One(c) => [c] + Show(items[1..])
      case Star(c) => [c, '*'] + Show(items[1..])
      case End => "$" + Show(items[1..])
  }

  /** Lists that a pattern can write: End only at the end, no plain '$' there, and no
      plain '*' where it would star the item before. */
  predicate Writable(items: seq<Item>) {
    items == [] ||
    (&& Writable(items[1..])
     && (items[0] == End ==> |items| == 1)
     && (items[0] == One('$') ==> |items| > 1)
     && (items[0].One? && |items| > 1 ==> items[1] != One('*') && items[1] != Star('*')))
  }

  lemma ShowStart(items: seq<Item>)
    requires items != []
    ensures Show(items) != "" && Show(items)[0] == if items[0] == End then '$' else items[0].c
  {
  }

  /** Reading back what was written, for every list that can be written. */
  lemma {:induction false} ReadsBack(items: seq<Item>)
    requires Writable(items)
    ensures Items(Show(items)) == items
  {
    if items != [] {
      var rest := items[1..];
      ReadsBack(rest);
      var re := Show(items);
      if rest != [] {
        ShowStart(rest);
        assert rest[0] == items[1];
      }
      if items[0].One? {
        assert re[1..] == Show(rest);
        assert rest != [] ==> re[1] != '*';
        assert re == "$" ==> rest == [];
      } else if items[0].Star? {
        assert re[2..] == Show(rest);
      } else {
        assert rest == [];
        assert re == "$";
      }
      assert items == [items[0]] + rest;
    }
  }

  /** A leading '*' is a literal, unless a '*' stars it. */
  lemma LeadingStar(re: string, text: string)
    requires re != "" && re[0] == '*' && (|re| == 1 || re[1] != '*')
    ensures Prefix(Items(re), text) <==> text != "" && text[0] == '*' && Prefix(Items(re[1..]), text[1..])
  {
    PrefixOne('*', Items(re[1..]), text);
  }

  // -------------------------------------------------- patterns everybody knows

  /** No character with a meaning of its own. */
  predicate Plain(re: string) {
    forall i :: 0 <= i < |re| ==> re[i] != '^' && re[i] != '$' && re[i] != '.' && re[i] != '*'
  }

  /** The pattern "." is found exactly in the texts that are not empty. */
  lemma DotFound(text: string)
    ensures Found(".", text) <==> text != ""
  {
    var items := Items(".");
    assert ("."[1..]) == "" && items == [One('.')] + [];
    if text == "" {
      forall i: nat, n: nat | i <= |text| && n <= |text| - i ensures !At(items, text, i, n) {
      }
    } else {
      PrefixEmpty(text[1..]);
      PrefixOne('.', [], text);
      PrefixFrom(items, text, 0);
      assert text[0..] == text;
    }
  }

  /** A plain pattern matches the texts that start with it, and the same with '$' exactly
      itself. */
  lemma {:induction false} PlainPrefix(re: string, text: string)
    requires Plain(re)
    ensures Prefix(Items(re), text) <==> re <= text
    ensures Prefix(Items(re + "$"), text) <==> re == text
    decreases |re|
  {
    if re == "" {
      PrefixEmpty(text);
      PrefixEnd(text);
      assert re + "$" == "$";
    } else {
      var rest := re[1..];
      assert Items(re) == [One(re[0])] + Items(rest);
      assert (re + "$")[1..] == rest + "$";
      assert (re + "$")[1] != '*' by {
        assert rest != "" ==> (re + "$")[1] == re[1];
      }
      assert re + "$" != "$" && Items(re + "$") == [One(re[0])] + Items(rest + "$");
      PrefixOne(re[0], Items(rest), text);
      PrefixOne(re[0], Items(rest + "$"), text);
      if text != "" {
        PlainPrefix(rest, text[1..]);
        assert re == [re[0]] + rest && text == [text[0]] + text[1..];
      }
    }
  }

  predicate HasAt(text: string, re: string, i: nat) {
    i + |re| <= |text| && text[i..i + |re|] == re
  }

  lemma PlainHere(re: string, text: string, i: nat)
    requires Plain(re) && i <= |text|
    ensures (exists n: nat :: n <= |text| - i && At(Items(re), text, i, n)) <==> HasAt(text, re, i)
  {
    PrefixFrom(Items(re), text, i);
    PlainPrefix(re, text[i..]);
    assert i + |re| <= |text| ==> text[i..][..|re|] == text[i..i + |re|];
  }

  /** A plain pattern is found exactly in the texts that contain it; with '^' where it
      starts the text, with '$' where it ends it. */
  lemma PlainFound(re: string, text: string)
    requires Plain(re)
    ensures Found(re, text) <==> exists i: nat :: HasAt(text, re, i)
    ensures Found("^" + re, text) <==> re <= text
    ensures Found(re + "$", text) <==> |re| <= |text| && text[|text| - |re|..] == re
  {
    assert ("^" + re)[1..] == re;
    PlainPrefix(re, text);
    EndFound(re, text);
    if Found(re, text) {
      var i: nat, n: nat :| i <= |text| && n <= |text| - i && At(Items(re), text, i, n);
      PlainHere(re, text, i);
    }
    if i: nat :| HasAt(text, re, i) {
      PlainHere(re, text, i);
    }
  }

  lemma EndFound(re: string, text: string)
    requires Plain(re)
    ensures Found(re + "$", text) <==> |re| <= |text| && text[|text| - |re|..] == re
  {
    var items := Items(re + "$");
    assert (re + "$")[0] != '^';
    if Found(re + "$", text) {
      var i: nat, n: nat :| i <= |text| && n <= |text| - i && At(items, text, i, n);
      PrefixFrom(items, text, i);
      PlainPrefix(re, text[i..]);
    }
    if |re| <= |text| && text[|text| - |re|..] == re {
      PlainPrefix(re, text[|text| - |re|..]);
      PrefixFrom(items, text, |text| - |re|);
    }
  }

  /** ".*" skips any number of characters. */
  lemma AnyStar(re: string, text: string)
    ensures Prefix(Items(".*" + re), text) <==> exists k: nat :: k <= |text| && Prefix(Items(re), text[k..])
  {
    assert (".*" + re)[2..] == re;
    PrefixStar('.', Items(re), text);
  }
}
