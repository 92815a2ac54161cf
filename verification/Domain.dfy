/** checkDomain: domain names as sections 2.3.1 and 2.3.4 of RFC 1035 and section 2.1 of RFC 1123 allow them. A
    character stands for a byte of the name. */
module Domain {
  import opened Strings
  import opened Wrappers

  // ---------------------------------------------------------------- names and labels

  predicate IsDigit(c: char) {
    '0' <= c <= '9'
  }

  predicate IsLdh(c: char) {
    'a' <= c <= 'z' || IsDigit(c) || c == '-' || 'A' <= c <= 'Z'
  }

  /** The characters that pass. */
  lemma LdhCharacters(c: char)
    ensures IsLdh(c) <==>
      c in "abcdefghijklmnopqrstuvwxyz" || c in "ABCDEFGHIJKLMNOPQRSTUVWXYZ" || c in "0123456789" || c == '-'
    ensures IsDigit(c) <==> c in "0123456789"
  {
    OneOf(c, "0123456789", '0');
    OneOf(c, "abcdefghijklmnopqrstuvwxyz", 'a');
    OneOf(c, "ABCDEFGHIJKLMNOPQRSTUVWXYZ", 'A');
  }

  /** A run of characters in order, without a gap. */
  lemma OneOf(c: char, run: string, first: char)
    requires run != "" && first as int + |run| <= 0xD800
    requires forall i :: 0 <= i < |run| ==> run[i] as int == first as int + i
    ensures c in run <==> first <= c <= run[|run| - 1]
  {
    if first <= c <= run[|run| - 1] {
      assert run[c as int - first as int] == c;
    }
  }

  predicate LabelOk(part: string) {
    && 0 < |part| <= 63
    && (forall k :: 0 <= k < |part| ==> IsLdh(part[k]))
    && part[0] != '-' && part[|part| - 1] != '-'
  }

  predicate TopOk(part: string) {
    |part| > 0 && !IsDigit(part[0])
  }

  predicate DomainOk(name: string) {
    name == "" ||
    (var labels := Split(name, '.');
     && |name| <= 255
     && (forall part <- labels :: LabelOk(part))
     && TopOk(labels[|labels| - 1]))
  }

  /** What the standards ask of a name: it is well-formed labels joined with dots. */
  ghost predicate IsDomain(name: string) {
    name == "" || exists labels :: MadeOf(name, labels)
  }

  predicate MadeOf(name: string, labels: seq<string>) {
    && |name| <= 255
    && |labels| > 0 && Join(labels, ".") == name
    && (forall part <- labels :: LabelOk(part))
    && TopOk(labels[|labels| - 1])
  }

  lemma DomainIsLabels(name: string)
    ensures DomainOk(name) <==> IsDomain(name)
  {
    if name != "" {
      SplitJoins(name, '.');
      if DomainOk(name) {
        assert MadeOf(name, Split(name, '.'));
      }
      if labels :| MadeOf(name, labels) {
        forall part | part in labels ensures Lacks(part, '.') {
          assert LabelOk(part);
        }
        JoinSplits(labels, '.');
      }
    }
  }

  // ---------------------------------------------------------------- errors

  datatype Error =
    | TooLong(length: nat)
    | EmptyLabel(at: nat)
    | LabelTooLong(l: nat, end: nat)
    | LeadingHyphen(l: nat, end: nat)
    | TrailingHyphen(l: nat, end: nat)
    | BadCharacter(at: nat)
    | NoTopLevel
    | TopLevelDigit(l: nat)

  /** name[l..end] is a whole label of the name. */
  predicate IsLabel(name: string, l: nat, end: nat) {
    && l <= end <= |name|
    && (l == 0 || name[l - 1] == '.')
    && (end == |name| || name[end] == '.')
    && forall k :: l <= k < end ==> name[k] != '.'
  }

  /** What an error says of the name, at the offsets it gives. */
  predicate Describes(name: string, e: Error) {
    match e
    case TooLong(n) => n == |name| > 255
    case EmptyLabel(at) => at < |name| && name[at] == '.' && IsLabel(name, at, at)
    case LabelTooLong(l, end) => IsLabel(name, l, end) && end - l > 63
    case LeadingHyphen(l, end) => IsLabel(name, l, end) && l < end && name[l] == '-'
    case TrailingHyphen(l, end) => IsLabel(name, l, end) && l < end && name[end - 1] == '-'
    case BadCharacter(at) => at < |name| && name[at] != '.' && !IsLdh(name[at])
    case NoTopLevel => name != "" && IsLabel(name, |name|, |name|)
    case TopLevelDigit(l) => IsLabel(name, l, |name|) && l < |name| && IsDigit(name[l])
  }

  // ---------------------------------------------------------------- where labels are

  /** A whole label is one of the labels, and the last of them if it ends the name. */
  lemma {:induction false} LabelInRest(name: string, from: nat, l: nat, end: nat)
    requires IsLabel(name, l, end) && from <= l
    ensures name[l..end] in PiecesFrom(name, '.', from)
    ensures end == |name| ==>
      PiecesFrom(name, '.', from)[|PiecesFrom(name, '.', from)| - 1] == name[l..end]
    decreases l - from
  {
    var d := NextOf(name, '.', from);
    if from == l {
      NextOfIs(name, '.', from, end);
      assert name[l..end] == PiecesFrom(name, '.', from)[0];
    } else {
      NextOfFound(name, '.', from);
      assert d < l by { assert name[l - 1] == '.'; }
      LabelInRest(name, d + 1, l, end);
    }
  }

  /** The label around a character that is no dot. */
  lemma {:induction false} LabelAround(name: string, from: nat, at: nat) returns (part: string)
    requires from <= at < |name| && name[at] != '.'
    ensures part in PiecesFrom(name, '.', from) && exists k :: 0 <= k < |part| && part[k] == name[at]
    decreases at - from
  {
    var d := NextOf(name, '.', from);
    NextOfFound(name, '.', from);
    if at < d {
      part := PiecesFrom(name, '.', from)[0];
      assert part == name[from..d] && part[at - from] == name[at];
    } else {
      part := LabelAround(name, d + 1, at);
    }
  }

  /** Each error is a reason. */
  lemma DescribedIsNotOk(name: string, e: Error)
    requires Describes(name, e)
    ensures !DomainOk(name)
  {
    match e
    case TooLong(_) =>
    case BadCharacter(at) =>
      var part := LabelAround(name, 0, at);
      assert !LabelOk(part);
    case EmptyLabel(at) => LabelInRest(name, 0, at, at);
    case NoTopLevel => LabelInRest(name, 0, |name|, |name|);
    case TopLevelDigit(l) => LabelInRest(name, 0, l, |name|);
    case LabelTooLong(l, end) => LabelInRest(name, 0, l, end);
    case LeadingHyphen(l, end) =>
      LabelInRest(name, 0, l, end);
      assert name[l..end][0] == '-';
    case TrailingHyphen(l, end) =>
      LabelInRest(name, 0, l, end);
      assert name[l..end][end - l - 1] == '-';
  }

  /** The labels that end before l are all in order. */
  ghost predicate Passed(name: string, l: nat) {
    && l <= |name|
    && (l == 0 || name[l - 1] == '.')
    && exists done: seq<string> :: PassedAs(name, l, done)
  }

  predicate PassedAs(name: string, l: nat, done: seq<string>)
    requires l <= |name|
  {
    Split(name, '.') == done + PiecesFrom(name, '.', l) && forall part <- done :: LabelOk(part)
  }

  lemma PassOne(name: string, l: nat, i: nat)
    requires Passed(name, l) && IsLabel(name, l, i) && i < |name| && LabelOk(name[l..i])
    ensures Passed(name, i + 1)
  {
    var done :| PassedAs(name, l, done);
    var part, tail := name[l..i], PiecesFrom(name, '.', i + 1);
    NextOfIs(name, '.', l, i);
    assert PiecesFrom(name, '.', l) == [part] + tail;
    hide PiecesFrom, LabelOk, Split;
    assert done + ([part] + tail) == (done + [part]) + tail;
    assert PassedAs(name, i + 1, done + [part]);
  }

  lemma PassLast(name: string, l: nat)
    requires Passed(name, l) && IsLabel(name, l, |name|) && LabelOk(name[l..]) && !IsDigit(name[l])
    requires |name| <= 255
    ensures DomainOk(name)
  {
    var done :| PassedAs(name, l, done);
    NextOfIs(name, '.', l, |name|);
    assert Split(name, '.') == done + [name[l..]];
  }

  /** What a label has gone through when it is passed. */
  predicate Sound(name: string, l: nat, i: nat) {
    && l < i <= |name| && i - l <= 63 && name[l] != '-' && name[i - 1] != '-'
    && forall k :: l <= k < i ==> IsLdh(name[k])
  }

  lemma PassDot(name: string, l: nat, i: nat)
    requires Passed(name, l) && IsLabel(name, l, i) && Sound(name, l, i) && i < |name|
    ensures Passed(name, i + 1)
  {
    assert LabelOk(name[l..i]);
    PassOne(name, l, i);
  }

  lemma PassEnd(name: string, l: nat)
    requires Passed(name, l) && IsLabel(name, l, |name|) && Sound(name, l, |name|) && !IsDigit(name[l])
    requires |name| <= 255
    ensures DomainOk(name)
  {
    assert LabelOk(name[l..]);
    PassLast(name, l);
  }

  lemma ScannedLabel(name: string, l: nat, i: nat)
    requires l <= i <= |name| && (l == 0 || name[l - 1] == '.') && (i == |name| || name[i] == '.')
    requires forall k :: l <= k < i ==> IsLdh(name[k])
    ensures IsLabel(name, l, i)
  {
  }

  // ---------------------------------------------------------------- the check

  /** One pass over the name, l being where the current label starts. */
  method CheckDomain(name: string) returns (err: Option<Error>)
    ensures err.None? <==> IsDomain(name)
    ensures err.Some? ==> Describes(name, err.value)
  {
    DomainIsLabels(name);
    err := Scan(name);
    if err.Some? {
      DescribedIsNotOk(name, err.value);
    }
  }

  method Scan(name: string) returns (err: Option<Error>)
    ensures err.None? ==> DomainOk(name)
    ensures err.Some? ==> Describes(name, err.value)
  {
    if |name| == 0 {
      return None;
    } else if |name| > 255 {
      return Some(TooLong(|name|));
    }
    var l := 0;
    assert PassedAs(name, 0, []);
    hide Passed, PassedAs, DomainOk, Split, LabelOk, IsLdh, IsDigit, IsLabel;
    for i := 0 to |name|
      invariant l <= i && (l == 0 || name[l - 1] == '.') && Passed(name, l)
      invariant forall k :: l <= k < i ==> IsLdh(name[k])
    {
      var b := name[i];
      if b == '.' {
        ScannedLabel(name, l, i);
        if i == l {
          return Some(EmptyLabel(i));
        } else if i - l > 63 {
          return Some(LabelTooLong(l, i));
        } else if name[l] == '-' {
          return Some(LeadingHyphen(l, i));
        } else if name[i - 1] == '-' {
          return Some(TrailingHyphen(l, i));
        }
        PassDot(name, l, i);
        l := i + 1;
      } else if !IsLdh(b) {
        return Some(BadCharacter(i));
      }
    }
    ScannedLabel(name, l, |name|);
    if l == |name| {
      return Some(NoTopLevel);
    } else if |name| - l > 63 {
      return Some(LabelTooLong(l, |name|));
    } else if name[l] == '-' {
      return Some(LeadingHyphen(l, |name|));
    } else if name[|name| - 1] == '-' {
      return Some(TrailingHyphen(l, |name|));
    } else if IsDigit(name[l]) {
      return Some(TopLevelDigit(l));
    }
    PassEnd(name, l);
    err := None;
  }
}
