/** The few string operations of the Go library that the other modules call. */
module Strings {

  predicate ContainsAt(s: string, sub: string, i: nat) {
    i + |sub| <= |s| && s[i..i + |sub|] == sub
  }

  /** strings.Contains. */
  predicate Contains(s: string, sub: string) {
    exists i: nat :: i <= |s| && ContainsAt(s, sub, i)
  }

  /** s has no c in it. */
  predicate Lacks(s: string, c: char) {
    forall k :: 0 <= k < |s| ==> s[k] != c
  }

  /** The place of the first c from l on, or else the end. */
  function NextOf(s: string, c: char, l: nat): (d: nat)
    requires l <= |s|
    ensures l <= d <= |s|
    decreases |s| - l
  {
    if l == |s| || s[l] == c then l else NextOf(s, c, l + 1)
  }

  lemma {:induction false} NextOfIs(s: string, c: char, l: nat, d: nat)
    requires l <= d <= |s| && (d == |s| || s[d] == c) && forall k :: l <= k < d ==> s[k] != c
    ensures NextOf(s, c, l) == d
    decreases d - l
  {
    if l < d {
      NextOfIs(s, c, l + 1, d);
    }
  }

  lemma {:induction false} NextOfFound(s: string, c: char, l: nat)
    requires l <= |s|
    ensures var d := NextOf(s, c, l);
      (d == |s| || s[d] == c) && forall k :: l <= k < d ==> s[k] != c
    decreases |s| - l
  {
    if l < |s| && s[l] != c {
      NextOfFound(s, c, l + 1);
    }
  }

  /** The pieces of s from offset l on that c sets apart, in order. */
  function PiecesFrom(s: string, c: char, l: nat): (pieces: seq<string>)
    requires l <= |s|
    ensures |pieces| > 0
    decreases |s| - l
  {
    var d := NextOf(s, c, l);
    if d == |s| then [s[l..]] else [s[l..d]] + PiecesFrom(s, c, d + 1)
  }

  /** strings.Split, for a separator of one character. */
  function Split(s: string, c: char): (pieces: seq<string>)
    ensures |pieces| > 0
  {
    PiecesFrom(s, c, 0)
  }

  /** strings.Join. */
  function Join(pieces: seq<string>, sep: string): string {
    if pieces == [] then ""
    else if |pieces| == 1 then pieces[0]
    else pieces[0] + sep + Join(pieces[1..], sep)
  }

  lemma JoinFirst(head: string, tail: seq<string>, sep: string)
    requires tail != []
    ensures Join([head] + tail, sep) == head + (sep + Join(tail, sep))
  {
    assert ([head] + tail)[1..] == tail;
  }

  lemma FirstPiece(s: string, c: char, l: nat)
    requires l <= |s|
    ensures var d := NextOf(s, c, l);
      PiecesFrom(s, c, l) == if d == |s| then [s[l..]] else [s[l..d]] + PiecesFrom(s, c, d + 1)
  {
  }

  lemma {:induction false} JoinPieces(s: string, c: char, l: nat)
    requires l <= |s|
    ensures Join(PiecesFrom(s, c, l), [c]) == s[l..]
    ensures AllLack(PiecesFrom(s, c, l), c)
    decreases |s| - l
  {
    hide *;
    var d := NextOf(s, c, l);
    FirstPiece(s, c, l);
    PieceLacks(s, c, l);
    if d < |s| {
      JoinPieces(s, c, d + 1);
      JoinFirst(s[l..d], PiecesFrom(s, c, d + 1), [c]);
      LackFirst(s[l..d], PiecesFrom(s, c, d + 1), c);
      RestAt(s, l, d);
    } else {
      JoinOne(s[l..], c);
    }
  }

  ghost predicate AllLack(pieces: seq<string>, c: char) {
    forall piece <- pieces :: Lacks(piece, c)
  }

  lemma PieceLacks(s: string, c: char, l: nat)
    requires l <= |s|
    ensures var d := NextOf(s, c, l);
      Lacks(s[l..d], c) && (d < |s| ==> s[d] == c) && (d == |s| ==> s[l..d] == s[l..])
  {
    NextOfFound(s, c, l);
  }

  lemma JoinOne(piece: string, c: char)
    ensures Join([piece], [c]) == piece && (AllLack([piece], c) <==> Lacks(piece, c))
  {
  }

  lemma LackFirst(piece: string, rest: seq<string>, c: char)
    requires Lacks(piece, c) && AllLack(rest, c)
    ensures AllLack([piece] + rest, c)
  {
  }

  lemma RestAt(s: string, l: nat, d: nat)
    requires l <= d < |s|
    ensures s[l..] == s[l..d] + ([s[d]] + s[d + 1..])
  {
  }

  /** The pieces lack the separator, and joined with it make up the string. */
  lemma SplitJoins(s: string, c: char)
    ensures Join(Split(s, c), [c]) == s && forall piece <- Split(s, c) :: Lacks(piece, c)
  {
    JoinPieces(s, c, 0);
    assert s[0..] == s;
  }

  /** Where a string starts with a piece, its next c is at the end of that piece. */
  lemma PieceAt(s: string, c: char, l: nat, head: string, rest: string)
    requires l <= |s| && Lacks(head, c) && s[l..] == head + rest && (rest == "" || rest[0] == c)
    ensures NextOf(s, c, l) == l + |head| && s[l..l + |head|] == head && s[l + |head|..] == rest
  {
    var d := l + |head|;
    assert s[l..d] == s[l..][..|head|] && s[d..] == s[l..][|head|..];
    forall k | l <= k < d ensures s[k] != c {
      assert s[k] == s[l..d][k - l];
    }
    assert rest != "" ==> s[d] == s[d..][0];
    NextOfIs(s, c, l, d);
  }

  lemma AfterFirst(s: string, d: nat, c: char, rest: string)
    requires d <= |s| && s[d..] == [c] + rest
    ensures d < |s| && s[d + 1..] == rest
  {
    assert s[d..][1..] == rest;
  }

  lemma OnePiece(s: string, c: char, l: nat, head: string)
    requires Lacks(head, c) && l <= |s| && s[l..] == head
    ensures PiecesFrom(s, c, l) == [head]
  {
    hide *;
    assert head + "" == head;
    PieceAt(s, c, l, head, "");
    FirstPiece(s, c, l);
  }

  lemma FirstOfMore(s: string, c: char, l: nat, head: string, tail: seq<string>)
    requires Lacks(head, c) && tail != [] && l <= |s| && s[l..] == Join([head] + tail, [c])
    ensures var d := l + |head|;
      d < |s| && s[d + 1..] == Join(tail, [c]) && PiecesFrom(s, c, l) == [head] + PiecesFrom(s, c, d + 1)
  {
    hide *;
    JoinFirst(head, tail, [c]);
    PieceAt(s, c, l, head, [c] + Join(tail, [c]));
    AfterFirst(s, l + |head|, c, Join(tail, [c]));
    FirstPiece(s, c, l);
  }

  lemma {:induction false} OnlyPieces(s: string, c: char, l: nat, pieces: seq<string>)
    requires |pieces| > 0 && (forall piece <- pieces :: Lacks(piece, c)) && l <= |s| && s[l..] == Join(pieces, [c])
    ensures PiecesFrom(s, c, l) == pieces
    decreases |pieces|
  {
    assert |pieces| == 1 ==> Join(pieces, [c]) == pieces[0];
    hide *;
    var head, tail := pieces[0], pieces[1..];
    assert pieces == [head] + tail;
    assert Lacks(head, c);
    if tail == [] {
      OnePiece(s, c, l, head);
    } else {
      FirstOfMore(s, c, l, head, tail);
      OnlyPieces(s, c, l + |head| + 1, tail);
    }
  }

  /** And no other list of such pieces joins to the same string. */
  lemma JoinSplits(pieces: seq<string>, c: char)
    requires |pieces| > 0 && forall piece <- pieces :: Lacks(piece, c)
    ensures Split(Join(pieces, [c]), c) == pieces
  {
    var s := Join(pieces, [c]);
    assert s[0..] == s;
    OnlyPieces(s, c, 0, pieces);
  }

  function Digit(n: nat): char
    requires n < 10
  {
    '0' + n as char
  }

  /** strconv.Itoa. */
  function Itoa(n: nat): string {
    if n < 10 then [Digit(n)] else Itoa(n / 10) + [Digit(n % 10)]
  }

  /** What a string of decimal digits stands for. */
  function DecimalValue(s: string): int {
    if s == "" then 0 else DecimalValue(s[..|s| - 1]) * 10 + (s[|s| - 1] as int - '0' as int)
  }

  /** Itoa gives digits, without a leading zero but for zero itself, that stand for the number. */
  lemma {:induction false} ItoaIs(n: nat)
    ensures DecimalValue(Itoa(n)) == n
    ensures Itoa(n) != "" && forall i :: 0 <= i < |Itoa(n)| ==> '0' <= Itoa(n)[i] <= '9'
    ensures n > 0 ==> Itoa(n)[0] != '0'
  {
    if n >= 10 {
      ItoaIs(n / 10);
      var front := Itoa(n / 10);
      assert Itoa(n) == front + [Digit(n % 10)];
      assert Itoa(n)[..|front|] == front;
    } else {
      assert Itoa(n)[..0] == "";
    }
  }

  /** So no two numbers look alike. */
  lemma ItoaInjective(m: nat, n: nat)
    requires Itoa(m) == Itoa(n)
    ensures m == n
  {
    ItoaIs(m);
    ItoaIs(n);
  }

  /** Contains finds exactly the strings that have sub somewhere in them. */
  lemma ContainsIff(s: string, sub: string)
    ensures Contains(s, sub) <==> exists a, b :: s == a + sub + b
  {
    if i: nat :| i <= |s| && ContainsAt(s, sub, i) {
      assert s == s[..i] + sub + s[i + |sub|..];
    }
    if a, b :| s == a + sub + b {
      assert ContainsAt(s, sub, |a|);
    }
  }
}
