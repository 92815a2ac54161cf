/** Builder.Insert and Builder.Set: the columns, placeholders and values of a statement are in step. Any value is
    an int here: the code only moves values about. */
module Builder {
  import opened Placeholders
  import opened Strings
  import opened Wrappers

  type Value = int

  /** One field of a model: its column name, its value, and the parts of its orm tag if it has one. */
  datatype Field = Field(name: string, value: Value, tags: Option<seq<string>>)

  type Model = seq<Field>

  /** What goes to the database. */
  datatype Outcome = Failed | Executed(statement: string, values: seq<Value>)

  // ---------------------------------------------------------------- the columns of a model

  function Names(model: Model): (names: seq<string>)
    ensures |names| == |model|
  {
    seq(|model|, i requires 0 <= i < |model| => model[i].name)
  }

  function ValueMap(model: Model): (m: map<string, Value>)
    ensures forall f <- model :: f.name in m
  {
    if model == [] then map[]
    else
      var before, last := model[..|model| - 1], model[|model| - 1];
      assert model == before + [last];
      ValueMap(before)[last.name := last.value]
  }

  function TagMap(model: Model): map<string, seq<string>> {
    if model == [] then map[]
    else
      var before, last := model[..|model| - 1], model[|model| - 1];
      if last.tags.Some? then TagMap(before)[last.name := last.tags.value] else TagMap(before)
  }

  predicate IgnoredTag(tag: string) {
    tag == "autoinc" || tag == "pk" || tag == "-" || Contains(tag, "m2m")
  }

  predicate IgnoredBy(tags: Option<seq<string>>) {
    tags.Some? && exists i :: 0 <= i < |tags.value| && IgnoredTag(tags.value[i])
  }

  function Lookup<T>(m: map<string, T>, name: string): Option<T> {
    if name in m then Some(m[name]) else None
  }

  /** Which columns are left out. */
  function Flags(model: Model): (flags: seq<bool>)
    ensures |flags| == |model|
  {
    seq(|model|, i requires 0 <= i < |model| => IgnoredBy(Lookup(TagMap(model), model[i].name)))
  }

  function AllValues(model: Model): (values: seq<Value>)
    ensures |values| == |model|
  {
    seq(|model|, i requires 0 <= i < |model| => ValueMap(model)[model[i].name])
  }

  /** The members of xs that are not ignored. */
  function Pick<T>(xs: seq<T>, ignored: seq<bool>): (kept: seq<T>)
    requires |ignored| == |xs|
  {
    if xs == [] then []
    else (if ignored[0] then [] else [xs[0]]) + Pick(xs[1..], ignored[1..])
  }

  function Kept(model: Model): Model {
    if model == [] then []
    else (if IgnoredBy(model[0].tags) then [] else [model[0]]) + Kept(model[1..])
  }

  function Values(model: Model): seq<Value> {
    seq(|model|, i requires 0 <= i < |model| => model[i].value)
  }

  /** The fields that are left out by their own tags. */
  function OwnFlags(model: Model): (flags: seq<bool>)
    ensures |flags| == |model|
  {
    seq(|model|, i requires 0 <= i < |model| => IgnoredBy(model[i].tags))
  }

  /** The map keeps the value of the last field of a name. */
  lemma {:induction false} LastField(model: Model, i: nat) returns (j: nat)
    requires i < |model|
    ensures i <= j < |model| && model[j].name == model[i].name
    ensures ValueMap(model)[model[i].name] == model[j].value
  {
    var n := |model| - 1;
    if model[n].name == model[i].name {
      j := n;
    } else {
      j := LastField(model[..n], i);
    }
  }

  /** And the tags of the last field of a name that has any. */
  lemma {:induction false} LastTags(model: Model, name: string) returns (j: nat)
    ensures name in TagMap(model) ==>
      j < |model| && model[j].name == name && model[j].tags == Some(TagMap(model)[name])
    ensures name !in TagMap(model) ==>
      forall i :: 0 <= i < |model| && model[i].name == name ==> model[i].tags.None?
  {
    j := 0;
    if model != [] {
      var n := |model| - 1;
      if model[n].name == name && model[n].tags.Some? {
        j := n;
      } else {
        j := LastTags(model[..n], name);
      }
    }
  }

  predicate SameName(model: Model, i: int, j: int) {
    0 <= i < j < |model| && model[i].name == model[j].name
  }

  /** Every field finds its own value under its name exactly if fields of one name have one value. */
  lemma ValuesAgree(model: Model)
    ensures AllValues(model) == Values(model) <==>
      forall i, j :: SameName(model, i, j) ==> model[i].value == model[j].value
  {
    if AllValues(model) == Values(model) {
      forall i, j | SameName(model, i, j) ensures model[i].value == model[j].value {
        assert AllValues(model)[i] == Values(model)[i] && AllValues(model)[j] == Values(model)[j];
      }
    } else {
      var i :| 0 <= i < |model| && AllValues(model)[i] != Values(model)[i];
      var j := LastField(model, i);
      assert SameName(model, i, j);
    }
  }

  /** And is left out by its own tags exactly if fields of one name are left out together. */
  lemma FlagsAgree(model: Model)
    ensures Flags(model) == OwnFlags(model) <==>
      forall i, j :: SameName(model, i, j) ==> OwnFlags(model)[i] == OwnFlags(model)[j]
  {
    hide IgnoredBy;
    if Flags(model) == OwnFlags(model) {
      forall i, j | SameName(model, i, j) ensures OwnFlags(model)[i] == OwnFlags(model)[j] {
        assert Flags(model)[i] == Flags(model)[j];
      }
    } else {
      var i :| 0 <= i < |model| && Flags(model)[i] != OwnFlags(model)[i];
      FlagOf(model, i);
    }
  }

  /** A field that is not treated as its own tags say has a namesake that they fit. */
  lemma FlagOf(model: Model, i: nat)
    requires i < |model| && Flags(model)[i] != OwnFlags(model)[i]
    ensures exists j, k :: SameName(model, j, k) && (j == i || k == i) && OwnFlags(model)[j] != OwnFlags(model)[k]
  {
    var j := LastTags(model, model[i].name);
    assert model[i].name in TagMap(model);
    assert OwnFlags(model)[j] == Flags(model)[i];
    assert SameName(model, if i < j then i else j, if i < j then j else i);
  }

  /** Pick, field by field. */
  lemma {:induction false} PickKept(model: Model, flags: seq<bool>)
    requires |flags| == |model| && forall i :: 0 <= i < |model| ==> flags[i] == IgnoredBy(model[i].tags)
    ensures Pick(Names(model), flags) == Names(Kept(model))
    ensures Pick(Values(model), flags) == Values(Kept(model))
  {
    if model != [] {
      var f, tail := model[0], model[1..];
      PickKept(tail, flags[1..]);
      assert Pick(Names(model), flags) == (if flags[0] then [] else [f.name]) + Pick(Names(tail), flags[1..]) by {
        assert Names(model)[1..] == Names(tail);
      }
      assert Pick(Values(model), flags) == (if flags[0] then [] else [f.value]) + Pick(Values(tail), flags[1..]) by {
        assert Values(model)[1..] == Values(tail);
      }
      assert Kept(model) == (if flags[0] then [] else [f]) + Kept(tail);
      hide Pick, Kept, IgnoredBy;
      if !flags[0] {
        FirstField(f, Kept(tail));
      }
    }
  }

  lemma FirstField(f: Field, rest: Model)
    ensures Names([f] + rest) == [f.name] + Names(rest)
    ensures Values([f] + rest) == [f.value] + Values(rest)
  {
  }

  lemma {:induction false} PickMember<T>(xs: seq<T>, ignored: seq<bool>, x: T)
    requires |ignored| == |xs|
    ensures x in Pick(xs, ignored) <==> exists i :: 0 <= i < |xs| && xs[i] == x && !ignored[i]
  {
    if xs != [] {
      var rest, flags := xs[1..], ignored[1..];
      PickMember(rest, flags, x);
      if i :| 0 <= i < |rest| && rest[i] == x && !flags[i] {
        assert xs[i + 1] == x && !ignored[i + 1];
      }
      if i :| 0 <= i < |xs| && xs[i] == x && !ignored[i] {
        assert i > 0 ==> rest[i - 1] == x && !flags[i - 1];
      }
    }
  }

  /** Where the first list ignores no x, the second has as many only if it ignores none either. */
  lemma {:induction false} PickCount<T>(xs: seq<T>, none: seq<bool>, some: seq<bool>, x: T)
    requires |none| == |some| == |xs| && forall i :: 0 <= i < |xs| && xs[i] == x ==> !none[i]
    ensures multiset(Pick(xs, some))[x] <= multiset(Pick(xs, none))[x]
    ensures (exists i :: 0 <= i < |xs| && xs[i] == x && some[i]) ==>
      multiset(Pick(xs, some))[x] < multiset(Pick(xs, none))[x]
  {
    if xs != [] {
      PickCount(xs[1..], none[1..], some[1..], x);
      if i :| 0 < i < |xs| && xs[i] == x && some[i] {
        assert xs[1..][i - 1] == x && some[1..][i - 1];
      }
      assert multiset(Pick(xs, some))[x]
        == multiset(Pick(xs[1..], some[1..]))[x] + if xs[0] == x && !some[0] then 1 else 0;
      assert multiset(Pick(xs, none))[x]
        == multiset(Pick(xs[1..], none[1..]))[x] + if xs[0] == x && !none[0] then 1 else 0;
    }
  }

  lemma GoneDiffers(xs: seq<string>, all: seq<bool>, own: seq<bool>, x: string)
    requires |all| == |own| == |xs| && forall i :: 0 <= i < |xs| && xs[i] == x ==> all[i]
    requires exists i :: 0 <= i < |xs| && xs[i] == x && !own[i]
    ensures Pick(xs, all) != Pick(xs, own)
  {
    hide Pick;
    PickMember(xs, own, x);
    PickMember(xs, all, x);
  }

  lemma MoreDiffers(xs: seq<string>, none: seq<bool>, own: seq<bool>, x: string)
    requires |none| == |own| == |xs| && forall i :: 0 <= i < |xs| && xs[i] == x ==> !none[i]
    requires exists i :: 0 <= i < |xs| && xs[i] == x && own[i]
    ensures Pick(xs, none) != Pick(xs, own)
  {
    hide Pick;
    PickCount(xs, none, own, x);
  }

  /** Flags that depend on the name only pick the same names as others exactly if they are the same. */
  lemma NamesDecideFlags(xs: seq<string>, byName: seq<bool>, own: seq<bool>)
    requires |byName| == |own| == |xs|
    requires forall i, j :: 0 <= i < j < |xs| && xs[i] == xs[j] ==> byName[i] == byName[j]
    ensures Pick(xs, byName) == Pick(xs, own) ==> byName == own
  {
    hide Pick;
    if byName != own {
      var i :| 0 <= i < |xs| && byName[i] != own[i];
      if byName[i] {
        GoneDiffers(xs, byName, own, xs[i]);
      } else {
        MoreDiffers(xs, byName, own, xs[i]);
      }
    }
  }

  predicate AgreeWhereKept<T(==)>(xs: seq<T>, ys: seq<T>, ignored: seq<bool>)
    requires |ignored| == |xs| == |ys|
  {
    forall i :: 0 <= i < |xs| && !ignored[i] ==> xs[i] == ys[i]
  }

  lemma AgreeFirst<T>(xs: seq<T>, ys: seq<T>, ignored: seq<bool>)
    requires |ignored| == |xs| == |ys| > 0
    ensures AgreeWhereKept(xs, ys, ignored) <==>
      (!ignored[0] ==> xs[0] == ys[0]) && AgreeWhereKept(xs[1..], ys[1..], ignored[1..])
  {
    if AgreeWhereKept(xs[1..], ys[1..], ignored[1..]) {
      forall i | 0 < i < |xs| && !ignored[i] ensures xs[i] == ys[i] {
        assert xs[1..][i - 1] == ys[1..][i - 1] && !ignored[1..][i - 1];
      }
    }
  }

  lemma FirstEqual<T>(x: T, y: T, p: seq<T>, q: seq<T>)
    ensures [x] + p == [y] + q <==> x == y && p == q
  {
    assert ([x] + p)[1..] == p && ([y] + q)[1..] == q;
    assert ([x] + p)[0] == x && ([y] + q)[0] == y;
  }

  lemma {:induction false} PickEqual<T>(xs: seq<T>, ys: seq<T>, ignored: seq<bool>)
    requires |ignored| == |xs| == |ys|
    ensures Pick(xs, ignored) == Pick(ys, ignored) <==> AgreeWhereKept(xs, ys, ignored)
  {
    if xs != [] {
      var p, q := Pick(xs[1..], ignored[1..]), Pick(ys[1..], ignored[1..]);
      assert Pick(xs, ignored) == if ignored[0] then p else [xs[0]] + p;
      assert Pick(ys, ignored) == if ignored[0] then q else [ys[0]] + q;
      hide *;
      PickEqual(xs[1..], ys[1..], ignored[1..]);
      AgreeFirst(xs, ys, ignored);
      FirstEqual(xs[0], ys[0], p, q);
    }
  }

  /** What Insert is for: the columns are the names of exactly the fields that are not ignored, in order, and
      beside each stands the value of its own field. */
  predicate InStep(model: Model) {
    && Pick(Names(model), Flags(model)) == Names(Kept(model))
    && Pick(AllValues(model), Flags(model)) == Values(Kept(model))
  }

  /** Fields of one name are ignored together or not at all, and if they are not they have one value. */
  ghost predicate Namesakes(model: Model) {
    forall i, j :: SameName(model, i, j) ==>
      OwnFlags(model)[i] == OwnFlags(model)[j] && (!OwnFlags(model)[i] ==> model[i].value == model[j].value)
  }

  /** Insert is in step exactly for the models whose namesakes agree so. */
  lemma InStepIff(model: Model)
    ensures InStep(model) <==> Namesakes(model)
  {
    PickKept(model, OwnFlags(model));
    FlagsAgree(model);
    assert forall i, j :: SameName(model, i, j) ==> Flags(model)[i] == Flags(model)[j];
    NamesDecideFlags(Names(model), Flags(model), OwnFlags(model));
    PickEqual(AllValues(model), Values(model), OwnFlags(model));
    hide Pick, Kept, Flags, OwnFlags;
    if Flags(model) == OwnFlags(model) {
      KeptValues(model);
    }
  }

  /** The values of the kept fields, where namesakes are ignored together. */
  lemma KeptValues(model: Model)
    requires forall i, j :: SameName(model, i, j) ==> OwnFlags(model)[i] == OwnFlags(model)[j]
    ensures (forall i :: 0 <= i < |model| && !OwnFlags(model)[i] ==> AllValues(model)[i] == Values(model)[i])
      <==> Namesakes(model)
  {
    hide OwnFlags;
    if Namesakes(model) {
      forall i | 0 <= i < |model| && !OwnFlags(model)[i] ensures AllValues(model)[i] == Values(model)[i] {
        var j := LastField(model, i);
        assert j == i || SameName(model, i, j);
      }
    }
    if forall i :: 0 <= i < |model| && !OwnFlags(model)[i] ==> AllValues(model)[i] == Values(model)[i] {
      forall i, j | SameName(model, i, j) && !OwnFlags(model)[i] ensures model[i].value == model[j].value {
        assert AllValues(model)[i] == Values(model)[i] && AllValues(model)[j] == Values(model)[j];
      }
    }
  }

  /** So for all models with distinct names. */
  lemma DistinctInStep(model: Model)
    requires forall i, j :: 0 <= i < j < |model| ==> model[i].name != model[j].name
    ensures InStep(model)
  {
    InStepIff(model);
  }

  /** And not for two fields whose names come out the same: the first column gets the second field's value. */
  lemma SameNameCollides(name: string, v: Value, w: Value)
    ensures InStep([Field(name, v, None), Field(name, w, None)]) <==> v == w
  {
    var model := [Field(name, v, None), Field(name, w, None)];
    InStepIff(model);
    assert SameName(model, 0, 1) && !OwnFlags(model)[0] && !OwnFlags(model)[1];
  }

  // ---------------------------------------------------------------- the loops of Insert

  /** getStructInfos. */
  method GetStructInfos(model: Model)
    returns (names: seq<string>, values: map<string, Value>, tags: map<string, seq<string>>)
    ensures names == Names(model) && values == ValueMap(model) && tags == TagMap(model)
  {
    names, values, tags := [], map[], map[];
    for i := 0 to |model|
      invariant names == Names(model[..i]) && values == ValueMap(model[..i]) && tags == TagMap(model[..i])
    {
      var f := model[i];
      assert model[..i + 1][..i] == model[..i];
      names, values := names + [f.name], values[f.name := f.value];
      if f.tags.Some? {
        tags := tags[f.name := f.tags.value];
      }
    }
    assert model[..|model|] == model;
  }

  /** The tags that keep a column out of an INSERT. */
  lemma IgnoredTagIs(tag: string)
    ensures IgnoredTag(tag) <==>
      tag == "autoinc" || tag == "pk" || tag == "-" || exists a, b :: tag == a + "m2m" + b
  {
    ContainsIff(tag, "m2m");
  }

  method HasIgnoredTag(tags: seq<string>) returns (ig: bool)
    ensures ig <==> IgnoredBy(Some(tags))
  {
    ig := false;
    for i := 0 to |tags|
      invariant ig <==> exists k :: 0 <= k < i && IgnoredTag(tags[k])
    {
      if tags[i] == "autoinc" || tags[i] == "pk" || tags[i] == "-" {
        ig := true;
      } else if Contains(tags[i], "m2m") {
        ig := true;
      }
    }
  }

  /** The places of the ignored members. */
  function Places(ignored: seq<bool>): seq<nat> {
    if ignored == [] then []
    else
      var n := |ignored| - 1;
      Places(ignored[..n]) + if ignored[n] then [n] else []
  }

  /** As many as there are members left. */
  function Marks(ignored: seq<bool>): seq<string> {
    if ignored == [] then []
    else
      var n := |ignored| - 1;
      Marks(ignored[..n]) + if ignored[n] then [] else ["?"]
  }

  /** The first loop of Insert: the values in the order of the names, a question mark for each name that is not
      ignored, and the places of those that are. */
  method Collect(names: seq<string>, valueOf: map<string, Value>, tagsOf: map<string, seq<string>>,
                 ghost model: Model)
    returns (found: bool, values: seq<Value>, marks: seq<string>, ignored: seq<nat>)
    requires names == Names(model) && valueOf == ValueMap(model) && tagsOf == TagMap(model)
    ensures found && values == AllValues(model) && marks == Marks(Flags(model)) && ignored == Places(Flags(model))
  {
    assert !IgnoredBy(None);
    hide ValueMap, TagMap, IgnoredBy;
    ghost var flags := Flags(model);
    found, values, marks, ignored := true, [], [], [];
    for i := 0 to |names|
      invariant found && values == AllValues(model)[..i]
      invariant marks == Marks(flags[..i]) && ignored == Places(flags[..i])
    {
      var name := names[i];
      assert flags[..i + 1][..i] == flags[..i];
      if name in valueOf {
        values := values + [valueOf[name]];
      } else {
        return false, [], [], [];
      }
      if name in tagsOf {
        var ig := HasIgnoredTag(tagsOf[name]);
        if ig {
          ignored := ignored + [i];
        } else {
          marks := marks + ["?"];
        }
      } else {
        marks := marks + ["?"];
      }
    }
    assert flags[..|names|] == flags;
  }

  // ---------------------------------------------------------------- the deletions

  lemma {:induction false} PickSnoc<T>(xs: seq<T>, ignored: seq<bool>, n: nat)
    requires |ignored| == |xs| && n < |xs|
    ensures Pick(xs[..n + 1], ignored[..n + 1]) ==
      Pick(xs[..n], ignored[..n]) + if ignored[n] then [] else [xs[n]]
  {
    if n > 0 {
      PickSnoc(xs[1..], ignored[1..], n - 1);
      assert xs[..n + 1][1..] == xs[1..][..n] && ignored[..n + 1][1..] == ignored[1..][..n];
      assert xs[..n][1..] == xs[1..][..n - 1] && ignored[..n][1..] == ignored[1..][..n - 1];
    } else {
      assert xs[..1] == [xs[0]] && ignored[..1] == [ignored[0]];
      assert [xs[0]][1..] == [] && [ignored[0]][1..] == [];
    }
  }

  predicate Clear(ignored: seq<bool>, p: nat, j: nat)
    requires p <= j <= |ignored|
  {
    forall k :: p <= k < j ==> !ignored[k]
  }

  lemma {:induction false} PickClear<T>(xs: seq<T>, ignored: seq<bool>, p: nat, j: nat)
    requires |ignored| == |xs| && p <= j <= |xs| && Clear(ignored, p, j)
    ensures Pick(xs[..j], ignored[..j]) == Pick(xs[..p], ignored[..p]) + xs[p..j]
    decreases j - p
  {
    hide Pick;
    if p < j {
      PickClear(xs, ignored, p, j - 1);
      PickSnoc(xs, ignored, j - 1);
      assert xs[p..j] == xs[p..j - 1] + [xs[j - 1]];
    } else {
      assert xs[p..j] == [];
    }
  }

  /** Where the stretch before the c-th place begins. */
  function Start(places: seq<nat>, c: nat): nat
    requires c <= |places|
  {
    if c == 0 then 0 else places[c - 1] + 1
  }

  lemma {:induction false} PlacesApart(ignored: seq<bool>, c: nat)
    requires c <= |Places(ignored)|
    ensures var places := Places(ignored);
      var p := Start(places, c);
      && p <= |ignored|
      && (c < |places| ==> p <= places[c] < |ignored| && ignored[places[c]] && Clear(ignored, p, places[c]))
      && (c == |places| ==> Clear(ignored, p, |ignored|))
  {
    if ignored != [] {
      var n := |ignored| - 1;
      var before := ignored[..n];
      if c <= |Places(before)| {
        PlacesApart(before, c);
      }
    }
  }

  predicate AllMarks(marks: seq<string>) {
    forall i :: 0 <= i < |marks| ==> marks[i] == "?"
  }

  lemma {:induction false} MarksCounted<T>(xs: seq<T>, ignored: seq<bool>)
    requires |ignored| == |xs|
    ensures |Marks(ignored)| == |Pick(xs, ignored)|
    ensures AllMarks(Marks(ignored))
  {
    if xs != [] {
      var n := |xs| - 1;
      MarksCounted(xs[..n], ignored[..n]);
      PickSnoc(xs, ignored, n);
      assert xs[..n + 1] == xs && ignored[..n + 1] == ignored;
    }
  }

  /** One deletion: the slices are whole again up to the place just dealt with. */
  lemma CutOne<T>(xs: seq<T>, ignored: seq<bool>, cum: nat, now: seq<T>)
    requires |ignored| == |xs| && cum < |Places(ignored)|
    requires Start(Places(ignored), cum) <= |xs| && CutTo(xs, ignored, cum, now)
    ensures var places := Places(ignored);
      var ii := places[cum] - cum;
      && places[cum] < |xs| && 0 <= ii < |now|
      && CutTo(xs, ignored, cum + 1, now[..ii] + now[ii + 1..])
  {
    PlacesApart(ignored, cum);
    var places := Places(ignored);
    var p, j := Start(places, cum), places[cum];
    PickClear(xs, ignored, p, j);
    PickSnoc(xs, ignored, j);
    var head := Pick(xs[..p], ignored[..p]);
    assert now == head + xs[p..] && |head| == p - cum;
    hide Pick, Places;
    DropOne(head, xs[p..j], xs[j], xs[j + 1..]);
    RestSplits(xs, p, j);
    assert xs[..j + 1] == xs[..j] + [xs[j]];
  }

  lemma DropOne<T>(a: seq<T>, b: seq<T>, x: T, c: seq<T>)
    ensures var now := a + (b + [x] + c); var ii := |a| + |b|;
      ii < |now| && now[..ii] + now[ii + 1..] == a + b + c
  {
    var now := a + (b + [x] + c);
    assert now[..|a| + |b|] == a + b && now[|a| + |b| + 1..] == c;
  }

  lemma RestSplits<T>(xs: seq<T>, p: nat, j: nat)
    requires p <= j < |xs|
    ensures xs[p..] == xs[p..j] + [xs[j]] + xs[j + 1..]
  {
  }

  /** The members before the next place have been picked, and the rest is untouched. */
  predicate CutTo<T(==)>(xs: seq<T>, ignored: seq<bool>, cum: nat, now: seq<T>)
    requires |ignored| == |xs| && cum <= |Places(ignored)|
  {
    var p := Start(Places(ignored), cum);
    && cum <= p <= |xs|
    && |Pick(xs[..p], ignored[..p])| == p - cum
    && now == Pick(xs[..p], ignored[..p]) + xs[p..]
  }

  lemma CutAll<T>(xs: seq<T>, ignored: seq<bool>, now: seq<T>)
    requires |ignored| == |xs| && CutTo(xs, ignored, |Places(ignored)|, now)
    ensures now == Pick(xs, ignored)
  {
    var p := Start(Places(ignored), |Places(ignored)|);
    PlacesApart(ignored, |Places(ignored)|);
    PickClear(xs, ignored, p, |xs|);
    assert xs[..|xs|] == xs && ignored[..|xs|] == ignored && xs[p..|xs|] == xs[p..];
  }

  /** The second loop of Insert: each place has moved down by the number of deletions before it. */
  method CutIgnored(allNames: seq<string>, allValues: seq<Value>, ignored: seq<nat>, ghost flags: seq<bool>)
    returns (names: seq<string>, values: seq<Value>)
    requires |allNames| == |allValues| == |flags| && ignored == Places(flags)
    ensures names == Pick(allNames, flags) && values == Pick(allValues, flags)
  {
    names, values := allNames, allValues;
    assert CutTo(allNames, flags, 0, names) && CutTo(allValues, flags, 0, values) by {
      assert allNames[..0] == [] && allNames[0..] == allNames && flags[..0] == [];
      assert allValues[..0] == [] && allValues[0..] == allValues;
    }
    hide CutTo, Places, Pick;
    for cum := 0 to |ignored|
      invariant CutTo(allNames, flags, cum, names) && CutTo(allValues, flags, cum, values)
    {
      PlacesApart(flags, cum);
      CutOne(allNames, flags, cum, names);
      CutOne(allValues, flags, cum, values);
      var ii := ignored[cum] - cum;
      names := names[..ii] + names[ii + 1..];
      values := values[..ii] + values[ii + 1..];
    }
    CutAll(allNames, flags, names);
    CutAll(allValues, flags, values);
  }

  // ---------------------------------------------------------------- statements

  function InsertText(table: string, columns: seq<string>, marks: seq<string>): string {
    "INSERT INTO " + table + " (" + (Join(columns, ",") + (") VALUES (" + (Join(marks, ",") + ")")))
  }

  function SetText(table: string, query: string, where: string): string {
    "UPDATE " + table + " SET " + (query + (" WHERE " + where))
  }

  /** Parameters numbered from k + 1 on. */
  function Params(k: nat, n: nat): (params: seq<string>)
    ensures |params| == n
  {
    seq(n, i requires 0 <= i < n => Mark('?', k + i))
  }

  lemma {:induction false} NumberedMarks(marks: seq<string>, k: nat)
    requires AllMarks(marks)
    ensures Numbered(Join(marks, ","), k) == Join(Params(k, |marks|), ",")
    ensures Count(Join(marks, ",")) == |marks|
  {
    if marks != [] {
      OneMark(k);
      var tail := marks[1..];
      assert marks == ["?"] + tail;
      NumberedMarks(tail, k + 1);
      hide Numbered, Count, Mark;
      assert Params(k, |marks|) == [Mark('?', k)] + Params(k + 1, |tail|);
      if tail != [] {
        MoreMarks(Join(tail, ","), k);
        assert Join(marks, ",") == "?" + "," + Join(tail, ",");
        assert Join(Params(k, |marks|), ",") == Mark('?', k) + "," + Join(Params(k + 1, |tail|), ",");
      }
    }
  }

  lemma OneMark(k: nat)
    ensures Numbered("?", k) == Mark('?', k) && Count("?") == 1
  {
    NumberedCons('?', "", k);
    assert "?" == ['?'] + "";
  }

  lemma MoreMarks(rest: string, k: nat)
    ensures Numbered("?" + "," + rest, k) == Mark('?', k) + "," + Numbered(rest, k + 1)
    ensures Count("?" + "," + rest) == 1 + Count(rest)
  {
    OneMark(k);
    hide *;
    NumberedPlain(",", k + 1);
    NumberedAppend("?", ",", k);
    NumberedAppend("?" + ",", rest, k);
  }

  lemma {:induction false} JoinLacks(pieces: seq<string>, sep: string, c: char)
    requires (forall piece <- pieces :: Lacks(piece, c)) && Lacks(sep, c)
    ensures Lacks(Join(pieces, sep), c)
  {
    if |pieces| > 1 {
      JoinLacks(pieces[1..], sep, c);
      assert Lacks(pieces[0], c);
    }
  }

  function Questions(n: nat): (marks: seq<string>)
    ensures |marks| == n
  {
    seq(n, _ => "?")
  }

  /** The n-th parameter is a dollar sign and n. */
  lemma ParamIs(n: nat, i: nat)
    requires i < n
    ensures Params(0, n)[i] == "$" + Itoa(i + 1)
  {
    assert Params(0, n)[i] == Mark('?', 0 + i);
  }

  /** Whatever the model and its ignored fields, the statement sent names the columns, and after them has one
      parameter for each column, numbered in order from 1 where the dialect numbers them; and there is one value for
      each. */
  lemma InsertInStep(table: string, model: Model, dialect: string)
    requires Lacks(table, '?') && forall f <- model :: Lacks(f.name, '?')
    ensures var flags := Flags(model);
      var columns, values := Pick(Names(model), flags), Pick(AllValues(model), flags);
      && |columns| == |values|
      && Adapted(InsertText(table, columns, Marks(flags)), dialect) ==
           "INSERT INTO " + table + " (" + Join(columns, ",") + ") VALUES ("
           + Join(if dialect == "postgres" || dialect == "sqlite" then Params(0, |columns|)
                  else Questions(|columns|), ",")
           + ")"
  {
    var flags := Flags(model);
    var columns := Pick(Names(model), flags);
    MarksCounted(Names(model), flags);
    MarksCounted(AllValues(model), flags);
    forall c | c in columns ensures Lacks(c, '?') {
      PickMember(Names(model), flags, c);
      var i :| 0 <= i < |model| && Names(model)[i] == c;
      assert model[i] in model;
    }
    JoinLacks(columns, ",", '?');
    InsertNumbered(table, columns, Marks(flags));
    assert Marks(flags) == Questions(|columns|);
    hide Pick, Flags, Marks, Params, Questions, Join, Numbered, AllValues, Names;
    InsertTextIs(table, columns, Params(0, |columns|));
    InsertTextIs(table, columns, Questions(|columns|));
  }

  lemma InsertTextIs(table: string, columns: seq<string>, params: seq<string>)
    ensures InsertText(table, columns, params) ==
      "INSERT INTO " + table + " (" + Join(columns, ",") + ") VALUES (" + Join(params, ",") + ")"
  {
    hide Join;
    var a, b, c, d := "INSERT INTO " + table + " (", Join(columns, ","), ") VALUES (", Join(params, ",");
    assert a + b + c + d + ")" == a + (b + (c + (d + ")")));
  }

  lemma InsertNumbered(table: string, columns: seq<string>, marks: seq<string>)
    requires Lacks(table, '?') && Lacks(Join(columns, ","), '?') && AllMarks(marks)
    ensures Numbered(InsertText(table, columns, marks), 0) == InsertText(table, columns, Params(0, |marks|))
  {
    var head, mid := "INSERT INTO " + table + " (", Join(columns, ",");
    var list := Join(marks, ",");
    hide Numbered, Count, Join, Params, Mark;
    NumberedMarks(marks, 0);
    NumberedPlain(head, 0);
    NumberedPlain(mid, 0);
    NumberedPlain(") VALUES (", 0);
    NumberedPlain(")", |marks|);
    NumberedAppend(head, mid + (") VALUES (" + (list + ")")), 0);
    NumberedAppend(mid, ") VALUES (" + (list + ")"), 0);
    NumberedAppend(") VALUES (", list + ")", 0);
    NumberedAppend(list, ")", 0);
  }

  /** Set puts its own arguments before those of Where, as the parameters are numbered: if the query has one
      parameter for each argument of its own, those of the condition are numbered on from there, and the k-th
      argument of Where stands where the k-th of them points. */
  lemma SetInStep(table: string, query: string, where: string, args: seq<Value>, whereArgs: seq<Value>)
    requires Lacks(table, '?') && Count(query) == |args|
    ensures Numbered(SetText(table, query, where), 0) ==
      "UPDATE " + table + " SET " + (Numbered(query, 0) + (" WHERE " + Numbered(where, |args|)))
    ensures Count(where) == |whereArgs| ==> Count(SetText(table, query, where)) == |args + whereArgs|
    ensures forall k :: 0 <= k < |whereArgs| ==> (args + whereArgs)[|args| + k] == whereArgs[k]
  {
    var head := "UPDATE " + table + " SET ";
    hide Numbered, Count;
    NumberedPlain(head, 0);
    NumberedPlain(" WHERE ", |args|);
    NumberedAppend(head, query + (" WHERE " + where), 0);
    NumberedAppend(query, " WHERE " + where, 0);
    NumberedAppend(" WHERE ", where, |args|);
  }

  lemma {:induction false} ValueMapSize(model: Model)
    ensures |ValueMap(model)| <= |model|
  {
    if model != [] {
      var before, last := model[..|model| - 1], model[|model| - 1];
      ValueMapSize(before);
      assert ValueMap(model).Keys == ValueMap(before).Keys + {last.name};
      assert |ValueMap(model).Keys| <= |ValueMap(before).Keys| + 1;
    }
  }

  /** registered is the table that migrations have put down for the model, if any; db is the dialect of the
      database, if there is one. */
  class Builder {
    var tableName: string
    var whereQuery: string
    var args: seq<Value>
    var statement: string

    constructor ()
      ensures tableName == "" && whereQuery == "" && args == [] && statement == ""
    {
      tableName, whereQuery, args, statement := "", "", [], "";
    }

    method Insert(model: Model, registered: string, db: Option<string>) returns (out: Outcome)
      modifies this`tableName, this`statement
      ensures tableName == if old(tableName) == "" then registered else old(tableName)
      ensures out.Failed? <==> tableName == "" || db.None?
      ensures out.Failed? ==> statement == old(statement)
      ensures out.Executed? ==>
        var flags := Flags(model);
        && statement == out.statement
        && out.statement == Adapted(InsertText(tableName, Pick(Names(model), flags), Marks(flags)), db.value)
        && out.values == Pick(AllValues(model), flags)
      ensures out.Executed? && Lacks(tableName, '?') && (forall f <- model :: Lacks(f.name, '?')) ==>
        var columns := Pick(Names(model), Flags(model));
        && |out.values| == |columns|
        && out.statement ==
             "INSERT INTO " + tableName + " (" + Join(columns, ",") + ") VALUES ("
             + Join(if db.value == "postgres" || db.value == "sqlite" then Params(0, |columns|)
                    else Questions(|columns|), ",")
             + ")"
    {
      if tableName == "" {
        tableName := registered;
        if registered == "" {
          return Failed;
        }
      }
      if db.None? {
        return Failed;
      }
      var names, mvalues, mtags := GetStructInfos(model);
      ValueMapSize(model);
      if |names| < |mvalues| {
        return Failed;
      }
      var found, values, marks, ignored := Collect(names, mvalues, mtags, model);
      if !found {
        return Failed;
      }
      names, values := CutIgnored(names, values, ignored, Flags(model));
      statement := InsertText(tableName, names, marks);
      statement := AdaptPlaceholdersToDialect(statement, db.value);
      if Lacks(tableName, '?') && forall f <- model :: Lacks(f.name, '?') {
        InsertInStep(tableName, model, db.value);
      }
      out := Executed(statement, values);
    }

    method Set(query: string, setArgs: seq<Value>, registered: string, db: Option<string>) returns (out: Outcome)
      modifies this`tableName, this`statement
      ensures tableName == if old(tableName) == "" then registered else old(tableName)
      ensures out.Failed? <==> tableName == "" || db.None? || whereQuery == ""
      ensures out.Failed? ==> statement == old(statement)
      ensures out.Executed? ==>
        && statement == out.statement == Adapted(SetText(tableName, query, whereQuery), db.value)
        && out.values == setArgs + args
    {
      if tableName == "" {
        tableName := registered;
        if registered == "" {
          return Failed;
        }
      }
      if db.None? || whereQuery == "" {
        return Failed;
      }
      statement := SetText(tableName, query, whereQuery);
      statement := AdaptPlaceholdersToDialect(statement, db.value);
      out := Executed(statement, setArgs + args);
    }
  }
}
