/** Joining a list of strings, as `Array.prototype.join` does, and the more general interleaving of
    tokens with separators that a split undoes. */
module Strings {

  /** `tokens.join(sep)`: the tokens with `sep` between each adjacent pair; `""` for no tokens. */
  function Join(tokens: seq<string>, sep: string): (r: string)
    ensures |tokens| == 1 ==> r == tokens[0]
    ensures |tokens| >= 1 ==> r == Interleave(tokens, Repeat(sep, |tokens| - 1))
    decreases |tokens|
  {
    if |tokens| == 0 then []
    else if |tokens| == 1 then tokens[0]
    else
      assert Repeat(sep, |tokens| - 1)[1..] == Repeat(sep, |tokens| - 2);
      tokens[0] + sep + Join(tokens[1..], sep)
  }

  /** `n` copies of `x`. */
  function Repeat(x: string, n: nat): (r: seq<string>)
    ensures |r| == n
    ensures forall i :: 0 <= i < n ==> r[i] == x
  {
    seq(n, _ => x)
  }

  /** `tokens[0] + seps[0] + tokens[1] + ... + seps[n-1] + tokens[n]`. */
  function Interleave(tokens: seq<string>, seps: seq<string>): (r: string)
    requires |tokens| == |seps| + 1
    decreases |seps|
  {
    if |seps| == 0 then tokens[0]
    else tokens[0] + seps[0] + Interleave(tokens[1..], seps[1..])
  }

  /** Prepending one character to the first token prepends it to the interleaving. */
  lemma {:induction false} InterleaveConsHead(c: char, tokens: seq<string>, seps: seq<string>)
    requires |tokens| == |seps| + 1
    ensures Interleave([[c] + tokens[0]] + tokens[1..], seps) == [c] + Interleave(tokens, seps)
  {
    var t := [[c] + tokens[0]] + tokens[1..];
    assert t[1..] == tokens[1..];
  }

  /** An interleaving whose first token is non-empty starts with that token's first character. */
  lemma {:induction false} InterleaveFirst(tokens: seq<string>, seps: seq<string>)
    requires |tokens| == |seps| + 1 && tokens[0] != []
    ensures |Interleave(tokens, seps)| > 0 && Interleave(tokens, seps)[0] == tokens[0][0]
  {
  }
}
