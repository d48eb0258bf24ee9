/** Helpers on strings and sequences shared by the span aggregator and the chunker. */
module Strings {

  /** The total number of characters in `ws`. */
  function TotalLength(ws: seq<string>): nat
    decreases |ws|
  {
    if ws == [] then 0 else |ws[0]| + TotalLength(ws[1..])
  }

  /**
   * Python's `" ".join(ws)`: the words in order with one space between
   * neighbours. The text starts with the first word, a space follows it when
   * there is a second, and exactly one character is added per gap.
   */
  function Join(ws: seq<string>): (s: string)
    ensures ws == [] ==> s == ""
    ensures ws != [] ==> |s| == TotalLength(ws) + |ws| - 1
    ensures ws != [] ==> s[..|ws[0]|] == ws[0]
    ensures |ws| >= 2 ==> s[|ws[0]|] == ' '
    decreases |ws|
  {
    if |ws| == 0 then ""
    else if |ws| == 1 then ws[0]
    else ws[0] + " " + Join(ws[1..])
  }

  /** Joining `a + " " + b` as one word gives the same text as joining `a` and `b` apart. */
  lemma JoinFuseHead(a: string, b: string, rest: seq<string>)
    ensures Join([a + " " + b] + rest) == Join([a, b] + rest)
  {
    assert ([a, b] + rest)[1..] == [b] + rest;
    if rest != [] {
      assert ([a + " " + b] + rest)[1..] == rest;
      assert ([b] + rest)[1..] == rest;
    }
  }

  /** The concatenation of a sequence of sequences, in order. */
  function Flatten<T>(xss: seq<seq<T>>): seq<T>
    decreases |xss|
  {
    if xss == [] then [] else xss[0] + Flatten(xss[1..])
  }

  lemma {:induction false} FlattenSnoc<T>(xss: seq<seq<T>>, xs: seq<T>)
    ensures Flatten(xss + [xs]) == Flatten(xss) + xs
  {
    if xss == [] {
      assert [] + [xs] == [xs];
      assert [xs][1..] == [];
    } else {
      assert (xss + [xs])[1..] == xss[1..] + [xs];
      FlattenSnoc(xss[1..], xs);
    }
  }
}
