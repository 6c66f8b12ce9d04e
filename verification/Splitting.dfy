/** Splitting a string at a delimiter and joining pieces with it; each undoes the other. */
module Splitting {

  function Split(s: string, d: char): (pieces: seq<string>)
    ensures pieces != []
  {
    if s == "" then [""]
    else
      var rest := Split(s[1..], d);
      if s[0] == d then [""] + rest else [[s[0]] + rest[0]] + rest[1..]
  }

  function Join(pieces: seq<string>, d: char): string
    requires pieces != []
  {
    if |pieces| == 1 then pieces[0] else pieces[0] + [d] + Join(pieces[1..], d)
  }

  ghost predicate FreeOf(pieces: seq<string>, d: char) {
    forall k :: 0 <= k < |pieces| ==> d !in pieces[k]
  }

  lemma {:induction false} SplitIsFree(s: string, d: char)
    ensures FreeOf(Split(s, d), d)
  {
    if s != "" {
      SplitIsFree(s[1..], d);
    }
  }

  lemma {:induction false} JoinOfSplit(s: string, d: char)
    ensures Join(Split(s, d), d) == s
  {
    if s != "" {
      JoinOfSplit(s[1..], d);
      var rest := Split(s[1..], d);
      if s[0] == d {
        assert ([""] + rest)[1..] == rest;
      } else {
        assert ([[s[0]] + rest[0]] + rest[1..])[1..] == rest[1..];
      }
    }
  }

  lemma {:induction false} SplitAfter(piece: string, rest: string, d: char)
    requires d !in piece
    ensures Split(piece + [d] + rest, d) == [piece] + Split(rest, d)
  {
    var s := piece + [d] + rest;
    if piece == "" {
      assert s[1..] == rest;
    } else {
      assert s[1..] == piece[1..] + [d] + rest;
      SplitAfter(piece[1..], rest, d);
      assert [piece[0]] + piece[1..] == piece;
    }
  }

  lemma {:induction false} SplitWhole(piece: string, d: char)
    requires d !in piece
    ensures Split(piece, d) == [piece]
  {
    if piece != "" {
      SplitWhole(piece[1..], d);
      assert [piece[0]] + piece[1..] == piece;
    }
  }

  lemma {:induction false} SplitOfJoin(pieces: seq<string>, d: char)
    requires pieces != [] && FreeOf(pieces, d)
    ensures Split(Join(pieces, d), d) == pieces
  {
    if |pieces| == 1 {
      SplitWhole(pieces[0], d);
    } else {
      SplitOfJoin(pieces[1..], d);
      SplitAfter(pieces[0], Join(pieces[1..], d), d);
    }
  }
}
