/** The hash layout on small descriptors. */
module HashExamples {
  import opened Wrappers
  import opened Values
  import opened Descriptor
  import opened Ordering
  import opened Hashing
  import opened HashProperties
  import Builder

  /** No namespace and nothing else: the hash is undefined. */
  lemma HashOfEmpty()
    ensures HashOf([]) == Ok(None)
  {
    assert SortedGroups([]) == [];
  }

  /** Without a namespace the text starts with "undefined". */
  lemma HashWithoutNamespace()
    ensures HashOf([Skip(10)]) == Ok(Some("undefined:$sk:10"))
  {
    var d := [Skip(10)];
    assert NatToDecimal(10) == "10" by {
      assert NatToDecimal(1) == [DigitChar(1)];
    }
    assert IntToDecimal(10) == "10";
    assert Normalize(d).value == d;
    assert d[..0] == [];
    assert Scan(d) == Step(NoSegments, Skip(10));
    assert "$sk" + Sep + IntToDecimal(10) == "$sk:10";
    assert Scan(d) == NoSegments.(skip := Some("$sk:10"));
    assert "undefined" + Sep + "$sk:10" == "undefined:$sk:10";
    assert SortedGroups([]) == [];
  }

  /** Hashing leaves a descriptor without within/contains groups as it is. */
  lemma {:induction false} NormalizeWithoutArrays(d: seq<Entry>)
    requires forall i :: 0 <= i < |d| ==> !(d[i].Group? && SortsArrays(d[i].op))
    ensures Normalize(d) == Partial(d, None)
    decreases |d|
  {
    if d != [] {
      NormalizeWithoutArrays(d[1..]);
      assert [d[0]] + d[1..] == d;
    }
  }

  lemma DirectionTokens()
    ensures DirToken(Some("asc")) == "^" && DirToken(Some("desc")) == "v"
    ensures DirToken(None) == "undefined"
  {
  }

  /** The sort segment has no separator between field/direction pairs, and a missing
      direction reads "undefined". */
  lemma SortSegmentExample()
    ensures SortPairs(["name", "asc", "age", "desc", "id"], 0) == "name:^age:vid:undefined"
  {
    var spec := ["name", "asc", "age", "desc", "id"];
    DirectionTokens();
    SortSegmentTail();
    assert SortPairs(spec, 2) == "age:vid:undefined";
  }

  /** The pairs after the first: the missing last direction reads "undefined". */
  lemma SortSegmentTail()
    ensures SortPairs(["name", "asc", "age", "desc", "id"], 2) == "age:vid:undefined"
  {
    var spec := ["name", "asc", "age", "desc", "id"];
    DirectionTokens();
    assert SortPairs(spec, 4) == "id:undefined";
  }

  /** Groups are emitted by token: `$eq` before `$gt`, whatever order they were
      added in. */
  lemma GroupOrderExample(gt: GroupHash, eq: GroupHash)
    requires gt == GroupHash("$gt", [Pair("age", "21")])
    requires eq == GroupHash("$eq", [Pair("name", "\"Gnarls\"")])
    ensures SortedGroups([gt, eq]) == [eq, gt]
    ensures SortedGroups([eq, gt]) == [eq, gt]
  {
    assert SortBy(gt.pairs, PairField) == gt.pairs;
    assert SortBy(eq.pairs, PairField) == eq.pairs;
    assert SortEachGroup([gt, eq]) == [gt, eq];
    assert SortEachGroup([eq, gt]) == [eq, gt];
    assert [gt, eq][..1] == [gt] && [eq, gt][..1] == [eq];
    assert SortBy([gt], GroupToken) == [gt];
    assert SortBy([eq], GroupToken) == [eq];
    assert Below("$eq", "$gt");
    BelowTotal("$eq", "$gt");
  }

  /** A within value that is not an array throws. */
  lemma HashWithinNotAnArray()
    ensures HashOf([Group(Within, [Cond("shoe", JStr("nike"))])]) == Err(NotAnArray(Within, "shoe"))
  {
  }

  /** Array order does matter when two different elements render to the same string:
      the sort is stable, so [1, "1"] and ["1", 1] keep their orders. */
  lemma ArrayOrderMattersWhenRenderingsCollide()
    ensures SortArray([JInt(1), JStr("1")]) == [JInt(1), JStr("1")]
    ensures SortArray([JStr("1"), JInt(1)]) == [JStr("1"), JInt(1)]
  {
    assert JsString(JInt(1)) == "1" == JsString(JStr("1"));
    BelowIrreflexive("1");
    assert [JInt(1), JStr("1")][..1] == [JInt(1)];
    assert [JStr("1"), JInt(1)][..1] == [JStr("1")];
    assert SortBy([JInt(1)], JsString) == [JInt(1)];
    assert SortBy([JStr("1")], JsString) == [JStr("1")];
    assert Insert(JStr("1"), [JInt(1)], JsString) == [JInt(1), JStr("1")];
    assert Insert(JInt(1), [JStr("1")], JsString) == [JStr("1"), JInt(1)];
  }

  /** A descriptor with one group of one field hashes to "undefined", the group's
      token, the field, and the value's text (its array sorted for within and
      contains). */
  lemma OneGroupHash(op: Comparator, f: string, v: Value)
    requires SortsArrays(op) ==> v.JArr?
    ensures HashOf([Group(op, [Cond(f, v)])]) ==
      Ok(Some("undefined::" + Token(op) + ":" + f + ":" + Stringify(if SortsArrays(op) then CanonValue(v) else v)))
  {
    var w := if SortsArrays(op) then CanonValue(v) else v;
    var e := Group(op, [Cond(f, w)]);
    OneGroupNormalized(op, f, v);
    var g := GroupHash(Token(op), [Pair(f, Stringify(w))]);
    OneGroupScan(e, g);
    OneGroupAssemble(g);
  }

  lemma OneGroupNormalized(op: Comparator, f: string, v: Value)
    requires SortsArrays(op) ==> v.JArr?
    ensures Normalize([Group(op, [Cond(f, v)])]) ==
      Partial([Group(op, [Cond(f, if SortsArrays(op) then CanonValue(v) else v)])], None)
  {
    var d := [Group(op, [Cond(f, v)])];
    var w := if SortsArrays(op) then CanonValue(v) else v;
    if SortsArrays(op) {
      var r := SortArrays(op, [Cond(f, v)]);
      assert |r.value| == 1 && r.value[0] == Canon(Cond(f, v)) && r.failure.None?;
      assert r.value == [Cond(f, w)];
    }
    assert SortedEntry(d[0]) == Partial(Group(op, [Cond(f, w)]), None);
    NormalizeUnfold(d);
    assert d[1..] == [];
    assert Normalize(d[1..]) == Partial([], None);
    assert [Group(op, [Cond(f, w)])] + [] == [Group(op, [Cond(f, w)])];
  }

  lemma OneGroupScan(e: Entry, g: GroupHash)
    requires e.Group? && |e.conds| == 1
    requires g == GroupHash(Token(e.op), [Pair(e.conds[0].field, Stringify(e.conds[0].value))])
    ensures Scan([e]) == NoSegments.(groups := [g])
  {
    assert [e][..0] == [];
    var ps := PairsOf(e.conds);
    assert |ps| == 1 && ps[0] == g.pairs[0];
    assert ps == g.pairs;
  }

  lemma OneGroupAssemble(g: GroupHash)
    requires |g.pairs| == 1
    ensures Assemble(NoSegments.(groups := [g])) ==
      Some("undefined::" + g.token + ":" + g.pairs[0].field + ":" + g.pairs[0].text)
  {
    var seg := NoSegments.(groups := [g]);
    assert Head(seg) == None;
    SortBySingle(g.pairs[0], PairField);
    assert g.pairs == [g.pairs[0]];
    assert SortEachGroup([g]) == [g];
    SortBySingle(g, GroupToken);
    assert RenderGroups(None, [g]) == RenderGroup(None, g) by {
      assert [g][..0] == [];
    }
    var h := Some("undefined" + Sep + Sep + g.token);
    assert RenderGroup(None, g) == RenderPairs(h, g.pairs);
    assert RenderPairs(h, g.pairs) == Some(Text(h) + Sep + g.pairs[0].field + Sep + g.pairs[0].text) by {
      assert g.pairs[..0] == [];
    }
    assert "undefined" + Sep + Sep + g.token == "undefined::" + g.token;
  }

  lemma SortBySingle<T>(x: T, key: T -> string)
    ensures SortBy([x], key) == [x]
  {
    assert [x][..0] == [];
  }

  /** So [1, "1"] and ["1", 1] under within give two different hashes. */
  lemma ArrayOrderChangesHash()
    ensures HashOf([Group(Within, [Cond("x", JArr([JInt(1), JStr("1")]))])]) !=
            HashOf([Group(Within, [Cond("x", JArr([JStr("1"), JInt(1)]))])])
  {
    var a1, a2 := [JInt(1), JStr("1")], [JStr("1"), JInt(1)];
    ArrayOrderMattersWhenRenderingsCollide();
    OneGroupHash(Within, "x", JArr(a1));
    OneGroupHash(Within, "x", JArr(a2));
    StringifiedHeads(a1, a2);
    assert CanonValue(JArr(a1)) == JArr(a1) && CanonValue(JArr(a2)) == JArr(a2);
    DifferentTails("undefined::" + Token(Within) + ":" + "x" + ":", Stringify(JArr(a1)), Stringify(JArr(a2)));
  }

  lemma DifferentTails(p: string, t1: string, t2: string)
    requires |t1| > 1 && |t2| > 1 && t1[1] != t2[1]
    ensures p + t1 != p + t2
  {
    assert (p + t1)[|p| + 1] == t1[1] && (p + t2)[|p| + 1] == t2[1];
  }

  lemma StringifiedHeads(a1: seq<Value>, a2: seq<Value>)
    requires a1 == [JInt(1), JStr("1")] && a2 == [JStr("1"), JInt(1)]
    ensures |Stringify(JArr(a1))| > 1 && Stringify(JArr(a1))[1] == '1'
    ensures |Stringify(JArr(a2))| > 1 && Stringify(JArr(a2))[1] == '"'
  {
    assert Stringify(a1[0]) == "1" by { assert NatToDecimal(1) == "1"; }
    var p1 := seq(|a1|, k requires 0 <= k < |a1| => Stringify(a1[k]));
    var p2 := seq(|a2|, k requires 0 <= k < |a2| => Stringify(a2[k]));
    assert Stringify(JArr(a1)) == "[" + Join(p1, ",") + "]";
    assert Stringify(JArr(a2)) == "[" + Join(p2, ",") + "]";
    assert Join(p1, ",") == Join(p1[..1], ",") + "," + p1[1];
    assert Join(p2, ",") == Join(p2[..1], ",") + "," + p2[1];
    assert Join(p1[..1], ",") == "1";
    assert Join(p2[..1], ",") == "\"1\"";
  }

  /** A builder configured through the constructor hashes exactly as the builder made
      by the corresponding chain of calls. */
  lemma ConstructorChainSameHash()
    ensures Builder.Configure(Builder.Empty, Builder.UsersConfig).outcome == Builder.Done
    ensures HashOf(Builder.Configure(Builder.Empty, Builder.UsersConfig).state.json) ==
            HashOf(Builder.UsersChain.json)
  {
    Builder.ConstructorIsChain();
  }
}
