/** adaptPlaceholdersToDialect: the question marks of a statement become numbered parameters. */
module Placeholders {
  import opened Strings

  function Count(q: string): nat {
    if q == "" then 0 else (if q[0] == '?' then 1 else 0) + Count(q[1..])
  }

  /** q with its question marks numbered, the first of them with k + 1. */
  function Numbered(q: string, k: nat): string {
    if q == "" then ""
    else if q[0] == '?' then "$" + Itoa(k + 1) + Numbered(q[1..], k + 1)
    else [q[0]] + Numbered(q[1..], k)
  }

  predicate Numbers(dialect: string) {
    dialect == "postgres" || dialect == "sqlite"
  }

  function Adapted(q: string, dialect: string): string {
    if Numbers(dialect) then Numbered(q, 0) else q
  }

  function Mark(c: char, k: nat): string {
    if c == '?' then "$" + Itoa(k + 1) else [c]
  }

  function Step(c: char): nat {
    if c == '?' then 1 else 0
  }

  lemma NumberedCons(c: char, q: string, k: nat)
    ensures Numbered([c] + q, k) == Mark(c, k) + Numbered(q, k + Step(c))
    ensures Count([c] + q) == Step(c) + Count(q)
  {
    hide Itoa;
    assert ([c] + q)[1..] == q;
  }

  lemma Associative(a: string, b: string, c: string)
    ensures a + b + c == a + (b + c)
  {
  }

  /** What comes after a piece of text is numbered on from where that piece left off. */
  lemma {:induction false} NumberedAppend(a: string, b: string, k: nat)
    ensures Numbered(a + b, k) == Numbered(a, k) + Numbered(b, k + Count(a))
    ensures Count(a + b) == Count(a) + Count(b)
  {
    if a == "" {
      assert a + b == b;
    } else {
      hide *;
      var c, rest := a[0], a[1..];
      assert a == [c] + rest;
      Associative([c], rest, b);
      NumberedAppend(rest, b, k + Step(c));
      NumberedCons(c, rest, k);
      NumberedCons(c, rest + b, k);
      Associative(Mark(c, k), Numbered(rest, k + Step(c)), Numbered(b, k + Step(c) + Count(rest)));
    }
  }

  lemma {:induction false} NumberedPlain(q: string, k: nat)
    requires Lacks(q, '?')
    ensures Numbered(q, k) == q && Count(q) == 0
  {
    if q != "" {
      NumberedPlain(q[1..], k);
    }
  }

  /** A question mark gets the number of its place among them. */
  lemma OwnNumber(before: string, after: string)
    ensures Numbered(before + (['?'] + after), 0) ==
      Numbered(before, 0) + (Mark('?', Count(before)) + Numbered(after, Count(before) + 1))
    ensures Mark('?', Count(before)) == "$" + Itoa(Count(before) + 1)
  {
    assert Step('?') == 1;
    hide Numbered, Count, Itoa;
    NumberedAppend(before, ['?'] + after, 0);
    NumberedCons('?', after, Count(before));
  }

  /** The pieces between question marks, with numbers in place of those. */
  function NumberedPieces(pieces: seq<string>, k: nat): string
    requires |pieces| > 0
  {
    if |pieces| == 1 then pieces[0] else pieces[0] + Mark('?', k) + NumberedPieces(pieces[1..], k + 1)
  }

  lemma PiecesFromMark(q: string, l: nat)
    requires l <= |q|
    ensures var d := NextOf(q, '?', l);
      && Lacks(q[l..d], '?')
      && (d == |q| ==> PiecesFrom(q, '?', l) == [q[l..]] && q[l..] == q[l..d])
      && (d < |q| ==> PiecesFrom(q, '?', l) == [q[l..d]] + PiecesFrom(q, '?', d + 1)
                      && q[l..] == q[l..d] + (['?'] + q[d + 1..]))
  {
    NextOfFound(q, '?', l);
  }

  lemma MarkedPiece(piece: string, tail: string, k: nat)
    requires Lacks(piece, '?')
    ensures Numbered(piece + (['?'] + tail), k) == piece + Mark('?', k) + Numbered(tail, k + 1)
  {
    assert Step('?') == 1;
    hide *;
    NumberedPlain(piece, k);
    NumberedAppend(piece, ['?'] + tail, k);
    NumberedCons('?', tail, k);
    Associative(piece, Mark('?', k), Numbered(tail, k + 1));
  }

  lemma MorePieces(piece: string, pieces: seq<string>, k: nat)
    requires |pieces| > 0
    ensures NumberedPieces([piece] + pieces, k) == piece + Mark('?', k) + NumberedPieces(pieces, k + 1)
  {
    hide Mark;
    assert ([piece] + pieces)[1..] == pieces;
  }

  lemma {:induction false} PiecesNumbered(q: string, l: nat, k: nat)
    requires l <= |q|
    ensures NumberedPieces(PiecesFrom(q, '?', l), k) == Numbered(q[l..], k)
    decreases |q| - l
  {
    hide Numbered, PiecesFrom, NextOf, Mark;
    PiecesFromMark(q, l);
    var d := NextOf(q, '?', l);
    assert d == |q| ==> NumberedPieces([q[l..]], k) == q[l..];
    hide NumberedPieces;
    if d == |q| {
      NumberedPlain(q[l..], k);
    } else {
      PiecesNumbered(q, d + 1, k + 1);
      MorePieces(q[l..d], PiecesFrom(q, '?', d + 1), k);
      MarkedPiece(q[l..d], q[d + 1..], k);
    }
  }

  lemma {:induction false} JoinNumbered(pieces: seq<string>, numbered: seq<string>, k: nat)
    requires |numbered| == |pieces| > 0 && numbered[|pieces| - 1] == pieces[|pieces| - 1]
    requires forall j :: 0 <= j < |pieces| - 1 ==> numbered[j] == pieces[j] + Mark('?', k + j)
    ensures Join(numbered, "") == NumberedPieces(pieces, k)
    decreases |pieces|
  {
    hide Mark;
    if |pieces| > 1 {
      forall j | 0 <= j < |pieces| - 2 ensures numbered[1..][j] == pieces[1..][j] + Mark('?', k + 1 + j) {
        assert numbered[j + 1] == pieces[j + 1] + Mark('?', k + (j + 1));
      }
      JoinNumbered(pieces[1..], numbered[1..], k + 1);
      assert numbered[0] + "" == numbered[0];
    }
  }

  method AdaptPlaceholdersToDialect(query: string, dialect: string) returns (adapted: string)
    ensures adapted == Adapted(query, dialect)
    ensures adapted == if dialect == "postgres" || dialect == "sqlite" then Numbered(query, 0) else query
  {
    adapted := query;
    if '?' !in query {
      NumberedPlain(query, 0);
    }
    if '?' in query && Numbers(dialect) {
      var split := Split(query, '?');
      assert split == PiecesFrom(query, '?', 0) && query[0..] == query;
      ghost var pieces := split;
      var counter := 0;
      for i := 0 to |split|
        invariant |split| == |pieces| && counter == if i < |split| then i else |split| - 1
        invariant forall j :: 0 <= j < i && j < |split| - 1 ==> split[j] == pieces[j] + Mark('?', j)
        invariant forall j :: i <= j < |split| || j == |split| - 1 ==> split[j] == pieces[j]
      {
        if i < |split| - 1 {
          counter := counter + 1;
          Associative(split[i], "$", Itoa(counter));
          assert Mark('?', i) == "$" + Itoa(counter);
          split := split[i := split[i] + "$" + Itoa(counter)];
        }
      }
      hide *;
      forall j | 0 <= j < |pieces| - 1 ensures split[j] == pieces[j] + Mark('?', 0 + j) {}
      JoinNumbered(pieces, split, 0);
      PiecesNumbered(query, 0, 0);
      adapted := Join(split, "");
    }
  }
}
