/** What the hash promises: what it does to the descriptor it is given, which parts
    of the descriptor the text is read from, and that the text does not depend on the
    order of groups, of fields within a group, or of within/contains arrays. */
module HashProperties {
  import opened Wrappers
  import opened Values
  import opened Descriptor
  import opened Ordering
  import opened Hashing

  // ----- What hashing does to the descriptor -----

  /** Each within/contains array is replaced by a sorted permutation of itself. */
  lemma CanonValueSortedPermutation(v: Value)
    requires v.JArr?
    ensures CanonValue(v).JArr?
    ensures SortedBy(CanonValue(v).elems, JsString)
    ensures multiset(CanonValue(v).elems) == multiset(v.elems)
  {
    SortByProperties(v.elems, JsString);
  }

  lemma CanonValueIdempotent(v: Value)
    ensures CanonValue(CanonValue(v)) == CanonValue(v)
  {
    if v.JArr? {
      SortByProperties(v.elems, JsString);
      SortBySortedIsIdentity(SortArray(v.elems), JsString);
    }
  }

  /** A property hashing left alone, or a within/contains group some of whose
      values it sorted. */
  ghost predicate ArraysSortedOrKept(before: Entry, after: Entry)
  {
    || after == before
    || (&& before.Group? && SortsArrays(before.op) && after.Group? && after.op == before.op
        && |after.conds| == |before.conds|
        && forall j :: 0 <= j < |before.conds| ==>
             after.conds[j] == before.conds[j] || after.conds[j] == Canon(before.conds[j]))
  }

  /** Hashing changes nothing but the within/contains values, each of which is either
      left alone (after a throw) or sorted. */
  lemma NormalizeOnlySortsArrays(d: seq<Entry>)
    ensures forall i :: 0 <= i < |d| ==> ArraysSortedOrKept(d[i], Normalize(d).value[i])
  {
    NormalizeSortsOrKeeps(d);
  }

  /** Each property of after is the one of before, sorted or kept. */
  ghost predicate AllSortedOrKept(before: seq<Entry>, after: seq<Entry>)
  {
    |before| == |after| && forall i :: 0 <= i < |before| ==> ArraysSortedOrKept(before[i], after[i])
  }

  lemma {:induction false} NormalizeSortsOrKeeps(d: seq<Entry>)
    ensures AllSortedOrKept(d, Normalize(d).value)
    decreases |d|
  {
    if d != [] {
      if SortedEntry(d[0]).failure.Some? {
        ThrowSortsOrKeeps(d);
      } else {
        NormalizeSortsOrKeeps(d[1..]);
        StepSortsOrKeeps(d);
      }
    }
  }

  /** The first property throws: it is sorted or kept and the rest are kept. */
  lemma {:induction false} ThrowSortsOrKeeps(d: seq<Entry>)
    requires d != [] && SortedEntry(d[0]).failure.Some?
    ensures AllSortedOrKept(d, Normalize(d).value)
  {
    var n := Normalize(d).value;
    NormalizeUnfoldFails(d);
    assert n[0] == SortedEntry(d[0]).value && n[1..] == d[1..];
    EntrySortedOrKept(d[0]);
    AllKept(d[1..]);
    HeadAndTail(d, n);
  }

  /** The first property is handled, and the rest are sorted or kept. */
  lemma {:induction false} StepSortsOrKeeps(d: seq<Entry>)
    requires d != [] && SortedEntry(d[0]).failure.None?
    requires AllSortedOrKept(d[1..], Normalize(d[1..]).value)
    ensures AllSortedOrKept(d, Normalize(d).value)
  {
    var n := Normalize(d).value;
    NormalizeUnfoldOk(d);
    assert n[0] == SortedEntry(d[0]).value && n[1..] == Normalize(d[1..]).value;
    EntrySortedOrKept(d[0]);
    HeadAndTail(d, n);
  }

  /** One property as the hash leaves it: sorted or kept. */
  lemma EntrySortedOrKept(e: Entry)
    ensures ArraysSortedOrKept(e, SortedEntry(e).value)
  {
  }

  lemma AllKept(d: seq<Entry>)
    ensures AllSortedOrKept(d, d)
  {
  }

  lemma HeadAndTail(before: seq<Entry>, after: seq<Entry>)
    requires before != [] && |after| == |before|
    requires ArraysSortedOrKept(before[0], after[0]) && AllSortedOrKept(before[1..], after[1..])
    ensures AllSortedOrKept(before, after)
  {
    forall i | 1 <= i < |before| ensures ArraysSortedOrKept(before[i], after[i]) {
      assert before[1..][i - 1] == before[i] && after[1..][i - 1] == after[i];
    }
  }

  /** A property the hash left alone or sorted keeps its name, its kind, and the
      fields of its group. */
  lemma SortedOrKeptShape(a: Entry, b: Entry)
    requires ArraysSortedOrKept(a, b)
    ensures b.Key() == a.Key() && b.Extra? == a.Extra? && b.Group? == a.Group?
    ensures b.Type? ==> b == a
    ensures b.Group? ==>
      && |b.conds| == |a.conds|
      && forall j :: 0 <= j < |b.conds| ==> b.conds[j].field == a.conds[j].field
  {
  }

  /** Hashing leaves a descriptor the builder made one the builder could have made,
      whether it completes or throws part way. */
  lemma NormalizeKeepsBuilderMade(d: seq<Entry>)
    requires BuilderMade(d)
    ensures BuilderMade(Normalize(d).value)
  {
    NormalizeOnlySortsArrays(d);
    var n := Normalize(d).value;
    forall i | 0 <= i < |n|
      ensures && !n[i].Extra?
              && (n[i].Group? ==> n[i].conds != [] && UniqueFields(n[i].conds))
              && (n[i].Type? ==> n[i].kind in {"find", "findOne"})
    {
      SortedOrKeptShape(d[i], n[i]);
      if n[i].Group? {
        var cs, cs' := d[i].conds, n[i].conds;
        forall p, q | 0 <= p < q < |cs'| ensures cs'[p].field != cs'[q].field {
          assert cs[p].field != cs[q].field;
        }
      }
    }
  }

  lemma {:induction false} SortArraysIdempotent(op: Comparator, cs: seq<Cond>)
    ensures SortArrays(op, SortArrays(op, cs).value) == SortArrays(op, cs)
    decreases |cs|
  {
    if cs != [] && cs[0].value.JArr? {
      var rest := SortArrays(op, cs[1..]);
      var v := [Canon(cs[0])] + rest.value;
      assert v[1..] == rest.value;
      CanonValueIdempotent(cs[0].value);
      SortArraysIdempotent(op, cs[1..]);
    }
  }

  lemma {:induction false} NormalizeIdempotent(d: seq<Entry>)
    ensures Normalize(Normalize(d).value) == Normalize(d)
    decreases |d|
  {
    if d != [] {
      var n := Normalize(d).value;
      if d[0].Group? && SortsArrays(d[0].op) {
        var g := SortArrays(d[0].op, d[0].conds);
        SortArraysIdempotent(d[0].op, d[0].conds);
        if g.failure.Some? {
          assert n[1..] == d[1..];
        } else {
          NormalizeIdempotent(d[1..]);
          assert n[1..] == Normalize(d[1..]).value;
        }
      } else {
        NormalizeIdempotent(d[1..]);
        assert n[1..] == Normalize(d[1..]).value;
      }
    }
  }

  /** Hashing twice gives the same result, the same error included, and the second
      call leaves the descriptor as the first left it. */
  lemma HashTwice(d: seq<Entry>)
    ensures HashOf(Normalize(d).value) == HashOf(d)
    ensures Normalize(Normalize(d).value).value == Normalize(d).value
  {
    NormalizeIdempotent(d);
  }

  // ----- Where the text comes from -----

  /** The text a property read by key contributes. */
  function TextOf(e: Option<Entry>): Option<string>
  {
    if e.Some? then SegmentText(e.value) else None
  }

  /** The one of `only` and `except` that comes last in property order. */
  function Projection(d: seq<Entry>): Option<Entry>
  {
    var o, x := Find(d, "only"), Find(d, "except");
    if o < 0 && x < 0 then None else if o > x then Some(d[o]) else Some(d[x])
  }

  lemma GetAppend(p: seq<Entry>, e: Entry, k: string)
    ensures Find(p + [e], k) == if e.Key() == k then |p| else Find(p, k)
    ensures Get(p + [e], k) == if e.Key() == k then Some(e) else Get(p, k)
  {
    if e.Key() != k { FindAppend(p, e, k); }
  }

  lemma ProjectionAppend(p: seq<Entry>, e: Entry)
    requires e.Key() == "only" ==> e.Only?
    requires e.Key() == "except" ==> e.Except?
    ensures Projection(p + [e]) == if e.Only? || e.Except? then Some(e) else Projection(p)
  {
    GetAppend(p, e, "only");
    GetAppend(p, e, "except");
  }

  lemma ScanAppend(p: seq<Entry>, e: Entry)
    ensures Scan(p + [e]) == Step(Scan(p), e)
  {
    assert (p + [e])[..|p|] == p;
  }

  /** The keys of the fixed segments other than the projection. */
  const FixedKeys: set<string> := {"from", "byKey", "sort", "skip", "limit"}

  /** The accumulator the hash loop keeps for a fixed key. */
  function SegmentFor(seg: Segments, k: string): Option<string>
    requires k in FixedKeys
  {
    match k
    case "from" => seg.ns
    case "byKey" => seg.byKey
    case "sort" => seg.sort
    case "skip" => seg.skip
    case _ => seg.limit
  }

  lemma StepFixed(seg: Segments, e: Entry, k: string)
    requires k in FixedKeys
    ensures SegmentFor(Step(seg, e), k) == if e.Key() == k then SegmentText(e) else SegmentFor(seg, k)
  {
    match e
    case From(_) => FixedUpdate(seg, Step(seg, e), "from", k);
    case ByKey(_) => FixedUpdate(seg, Step(seg, e), "byKey", k);
    case Sort(_) => FixedUpdate(seg, Step(seg, e), "sort", k);
    case Skip(_) => FixedUpdate(seg, Step(seg, e), "skip", k);
    case Limit(_) => FixedUpdate(seg, Step(seg, e), "limit", k);
    case Only(_) => assert Step(seg, e).(select := seg.select) == seg;
    case Except(_) => assert Step(seg, e).(select := seg.select) == seg;
    case Type(_) =>
    case Group(op, _) =>
      NameNotFixed(op, k);
      assert Step(seg, e).(groups := seg.groups) == seg;
    case Extra(name, _) => ForeignNotFixed(name, k);
  }

  /** A step that writes fixed segment j leaves the other fixed segments alone. */
  lemma FixedUpdate(seg: Segments, after: Segments, j: string, k: string)
    requires j in FixedKeys && k in FixedKeys
    requires after == seg.(ns := if j == "from" then after.ns else seg.ns,
                           byKey := if j == "byKey" then after.byKey else seg.byKey,
                           sort := if j == "sort" then after.sort else seg.sort,
                           skip := if j == "skip" then after.skip else seg.skip,
                           limit := if j == "limit" then after.limit else seg.limit)
    ensures SegmentFor(after, k) == if j == k then SegmentFor(after, j) else SegmentFor(seg, k)
  {
  }

  lemma NameNotFixed(op: Comparator, k: string)
    requires k in FixedKeys
    ensures Name(op) != k
  {
    match op
    case Equals =>
    case NotEquals =>
    case Gt =>
    case Gte =>
    case Lt =>
    case Lte =>
    case Within =>
    case Contains =>
  }

  lemma ForeignNotFixed(name: ForeignName, k: string)
    requires k in FixedKeys
    ensures name != k
  {
    assert !Known(name);
  }

  lemma StepProjection(seg: Segments, e: Entry)
    ensures Step(seg, e).select == if e.Only? || e.Except? then SegmentText(e) else seg.select
  {
  }

  /** The fixed segments hold the texts of the from, byKey, sort, skip and limit
      properties. */
  lemma {:induction false} ScanFixedSegment(d: seq<Entry>, k: string)
    requires k in FixedKeys
    ensures SegmentFor(Scan(d), k) == TextOf(Get(d, k))
    decreases |d|
  {
    if d != [] {
      var p, e := d[..|d| - 1], d[|d| - 1];
      assert d == p + [e];
      ScanFixedSegment(p, k);
      ScanAppend(p, e);
      StepFixed(Scan(p), e, k);
      GetAppend(p, e, k);
    }
  }

  /** The projection segment holds the text of whichever of only and except comes
      last. */
  lemma {:induction false} ScanProjection(d: seq<Entry>)
    ensures Scan(d).select == TextOf(Projection(d))
    decreases |d|
  {
    if d != [] {
      var p, e := d[..|d| - 1], d[|d| - 1];
      assert d == p + [e];
      ScanProjection(p);
      KeyShapes(e);
      ScanProjectionStep(p, e);
    }
  }

  /** Only an `only` property carries the key "only", and likewise for "except". */
  lemma KeyShapes(e: Entry)
    ensures e.Key() == "only" ==> e.Only?
    ensures e.Key() == "except" ==> e.Except?
  {
    match e
    case Group(op, _) => NameNamesComparator(op);
    case _ =>
  }

  lemma ScanProjectionStep(p: seq<Entry>, e: Entry)
    requires Scan(p).select == TextOf(Projection(p))
    requires e.Key() == "only" ==> e.Only?
    requires e.Key() == "except" ==> e.Except?
    ensures Scan(p + [e]).select == TextOf(Projection(p + [e]))
  {
    ScanAppend(p, e);
    StepProjection(Scan(p), e);
    ProjectionAppend(p, e);
  }

  lemma TokenInjective(a: Comparator, b: Comparator)
    requires Token(a) == Token(b)
    ensures a == b
  {
  }

  /** The group hash of a property, for a group. */
  function GroupHashOf(e: Entry): GroupHash
    requires e.Group?
  {
    GroupHash(Token(e.op), PairsOf(e.conds))
  }

  lemma StepGroups(seg: Segments, e: Entry)
    ensures Step(seg, e).groups == if e.Group? then seg.groups + [GroupHashOf(e)] else seg.groups
  {
  }

  /** The group hashes of the descriptor's comparator groups, in property order. */
  function GroupsIn(d: seq<Entry>): seq<GroupHash>
    decreases |d|
  {
    if d == [] then []
    else (if d[0].Group? then [GroupHashOf(d[0])] else []) + GroupsIn(d[1..])
  }

  lemma {:induction false} GroupsInAppend(p: seq<Entry>, e: Entry)
    ensures GroupsIn(p + [e]) == GroupsIn(p) + (if e.Group? then [GroupHashOf(e)] else [])
    decreases |p|
  {
    if p == [] {
      assert p + [e] == [e] && [e][1..] == [];
    } else {
      var h := if p[0].Group? then [GroupHashOf(p[0])] else [];
      var t := if e.Group? then [GroupHashOf(e)] else [];
      assert (p + [e])[0] == p[0] && (p + [e])[1..] == p[1..] + [e];
      assert GroupsIn(p + [e]) == h + GroupsIn(p[1..] + [e]);
      GroupsInAppend(p[1..], e);
      assert GroupsIn(p) == h + GroupsIn(p[1..]);
      assert h + (GroupsIn(p[1..]) + t) == (h + GroupsIn(p[1..])) + t;
    }
  }

  /** The groups of the scan are the groups of the descriptor: one per comparator
      property, in property order. */
  lemma ScanGroupsMembers(d: seq<Entry>)
    ensures Scan(d).groups == GroupsIn(d)
    ensures forall g :: g in Scan(d).groups <==>
      exists i :: 0 <= i < |d| && d[i].Group? && g == GroupHashOf(d[i])
  {
    ScanGroupsInOrder(d);
    GroupsInMembers(d);
  }

  lemma {:induction false} ScanGroupsInOrder(d: seq<Entry>)
    ensures Scan(d).groups == GroupsIn(d)
    decreases |d|
  {
    if d != [] {
      var p, e := d[..|d| - 1], d[|d| - 1];
      assert d == p + [e];
      ScanGroupsInOrder(p);
      ScanAppend(p, e);
      StepGroups(Scan(p), e);
      GroupsInAppend(p, e);
    }
  }

  lemma {:induction false} GroupsInMembers(d: seq<Entry>)
    ensures forall g :: g in GroupsIn(d) <==>
      exists i :: 0 <= i < |d| && d[i].Group? && g == GroupHashOf(d[i])
    decreases |d|
  {
    if d != [] {
      var t := d[1..];
      GroupsInMembers(t);
      forall g ensures g in GroupsIn(d) <==>
        exists i :: 0 <= i < |d| && d[i].Group? && g == GroupHashOf(d[i])
      {
        if g in GroupsIn(t) {
          var i :| 0 <= i < |t| && t[i].Group? && g == GroupHashOf(t[i]);
          assert d[i + 1] == t[i];
        }
        if exists i :: 0 <= i < |d| && d[i].Group? && g == GroupHashOf(d[i]) {
          var i :| 0 <= i < |d| && d[i].Group? && g == GroupHashOf(d[i]);
          if i > 0 { assert t[i - 1] == d[i]; }
        }
      }
    }
  }

  /** No two groups of the scan share a token. */
  lemma {:induction false} ScanGroupsTokens(d: seq<Entry>)
    requires UniqueKeys(d)
    ensures forall a, b :: 0 <= a < b < |Scan(d).groups| ==>
      Scan(d).groups[a].token != Scan(d).groups[b].token
    decreases |d|
  {
    if d != [] {
      var p, e := d[..|d| - 1], d[|d| - 1];
      assert d == p + [e];
      assert UniqueKeys(p) by {
        forall i | 0 <= i < |p| ensures p[i] == d[i] { }
      }
      ScanGroupsTokens(p);
      ScanAppend(p, e);
      StepGroups(Scan(p), e);
      if e.Group? {
        TokenNotInScan(p, e);
      }
    }
  }

  /** A group whose name no earlier property carries has a token no earlier group
      has. */
  lemma TokenNotInScan(p: seq<Entry>, e: Entry)
    requires e.Group? && UniqueKeys(p + [e])
    ensures forall a :: 0 <= a < |Scan(p).groups| ==> Scan(p).groups[a].token != Token(e.op)
  {
    GroupsInMembers(p);
    ScanGroupsInOrder(p);
    forall a | 0 <= a < |Scan(p).groups| ensures Scan(p).groups[a].token != Token(e.op) {
      var g := Scan(p).groups[a];
      assert g in GroupsIn(p);
      var i :| 0 <= i < |p| && p[i].Group? && g == GroupHashOf(p[i]);
      assert (p + [e])[i] == p[i] && (p + [e])[|p|] == e;
      if Token(p[i].op) == Token(e.op) { TokenInjective(p[i].op, e.op); }
    }
  }

  /** In a descriptor without repeated names, an entry is the one found under its name. */
  lemma FindUnique(d: seq<Entry>, i: nat)
    requires UniqueKeys(d) && i < |d|
    ensures Find(d, d[i].Key()) == i
  {
  }

  lemma FindFieldUnique(cs: seq<Cond>, i: nat)
    requires UniqueFields(cs) && i < |cs|
    ensures FindField(cs, cs[i].field) == i
  {
  }

  /** In a descriptor without repeated names, a group is what its comparator reads. */
  lemma GroupOfAt(d: seq<Entry>, i: nat)
    requires UniqueKeys(d) && i < |d| && d[i].Group?
    ensures GroupOf(d, d[i].op) == Some(d[i].conds)
  {
    FindUnique(d, i);
  }

  /** Each group of the scan is the group of some comparator. */
  lemma ScanGroupComparator(d: seq<Entry>, g: GroupHash) returns (op: Comparator)
    requires WellFormed(d) && g in Scan(d).groups
    ensures GroupOf(d, op).Some? && g == GroupHash(Token(op), PairsOf(GroupOf(d, op).value))
  {
    ScanGroupsMembers(d);
    var i :| 0 <= i < |d| && d[i].Group? && g == GroupHashOf(d[i]);
    GroupOfAt(d, i);
    op := d[i].op;
  }

  /** Each comparator's group is a group of the scan. */
  lemma ComparatorInScan(d: seq<Entry>, op: Comparator)
    requires WellFormed(d) && GroupOf(d, op).Some?
    ensures GroupHash(Token(op), PairsOf(GroupOf(d, op).value)) in Scan(d).groups
  {
    ScanGroupsMembers(d);
    GroupUnderName(d, op);
    var i := Find(d, Name(op));
    assert d[i].Group? && GroupHash(Token(op), PairsOf(GroupOf(d, op).value)) == GroupHashOf(d[i]);
  }

  /** The groups of the scan, by comparator. */
  lemma ScanGroupsByComparator(d: seq<Entry>)
    requires WellFormed(d)
    ensures forall g :: g in Scan(d).groups <==>
      exists op :: GroupOf(d, op).Some? && g == GroupHash(Token(op), PairsOf(GroupOf(d, op).value))
  {
    forall g ensures g in Scan(d).groups <==>
      exists op :: GroupOf(d, op).Some? && g == GroupHash(Token(op), PairsOf(GroupOf(d, op).value))
    {
      if g in Scan(d).groups {
        var op := ScanGroupComparator(d, g);
      }
      if exists op :: GroupOf(d, op).Some? && g == GroupHash(Token(op), PairsOf(GroupOf(d, op).value)) {
        var op :| GroupOf(d, op).Some? && g == GroupHash(Token(op), PairsOf(GroupOf(d, op).value));
        ComparatorInScan(d, op);
      }
    }
  }

  // ----- The sorted groups are canonical -----

  lemma PairsDistinct(cs: seq<Cond>)
    requires UniqueFields(cs)
    ensures Distinct(PairsOf(cs))
    ensures KeyDetermines(PairsOf(cs), PairField)
  {
    var ps := PairsOf(cs);
    forall i, j | 0 <= i < |ps| && 0 <= j < |ps| && i != j ensures PairField(ps[i]) != PairField(ps[j]) {
      if i < j { assert cs[i].field != cs[j].field; } else { assert cs[j].field != cs[i].field; }
    }
  }

  lemma PairMoves(a: seq<Cond>, b: seq<Cond>, x: Pair)
    requires UniqueFields(a)
    requires forall f :: FieldValue(a, f) == FieldValue(b, f)
    requires x in PairsOf(a)
    ensures x in PairsOf(b)
  {
    var i :| 0 <= i < |a| && PairsOf(a)[i] == x;
    FindFieldUnique(a, i);
    var f := a[i].field;
    assert FieldValue(b, f) == Some(a[i].value);
    var j := FindField(b, f);
    assert PairsOf(b)[j] == x;
  }

  /** With distinct field names, a group's sorted pairs depend only on the value each
      field holds, not on the order in which the fields were added. */
  lemma PairsCanonical(cs1: seq<Cond>, cs2: seq<Cond>)
    requires UniqueFields(cs1) && UniqueFields(cs2)
    requires forall f :: FieldValue(cs1, f) == FieldValue(cs2, f)
    ensures SortBy(PairsOf(cs1), PairField) == SortBy(PairsOf(cs2), PairField)
  {
    var p1, p2 := PairsOf(cs1), PairsOf(cs2);
    PairsDistinct(cs1);
    PairsDistinct(cs2);
    forall x ensures x in p1 <==> x in p2 {
      if x in p1 { PairMoves(cs1, cs2, x); }
      if x in p2 { PairMoves(cs2, cs1, x); }
    }
    DistinctSameElements(p1, p2);
    SortByCanonical(p1, p2, PairField);
  }

  lemma GroupFieldsUnique(d: seq<Entry>, op: Comparator)
    requires WellFormed(d) && GroupOf(d, op).Some?
    ensures UniqueFields(GroupOf(d, op).value)
  {
    GroupUnderName(d, op);
  }

  /** The hash of comparator op's group, its pairs sorted. */
  function SortedGroupOf(d: seq<Entry>, op: Comparator): GroupHash
    requires GroupOf(d, op).Some?
  {
    GroupHash(Token(op), SortBy(PairsOf(GroupOf(d, op).value), PairField))
  }

  lemma SortEachGroupMembers(d: seq<Entry>)
    requires WellFormed(d)
    ensures forall g :: g in SortEachGroup(Scan(d).groups) <==>
      exists op :: GroupOf(d, op).Some? && g == SortedGroupOf(d, op)
    ensures Distinct(SortEachGroup(Scan(d).groups))
    ensures KeyDetermines(SortEachGroup(Scan(d).groups), GroupToken)
  {
    var r := SortEachGroup(Scan(d).groups);
    forall g ensures g in r <==> exists op :: GroupOf(d, op).Some? && g == SortedGroupOf(d, op) {
      if g in r {
        var op := SortedGroupComparator(d, g);
      }
      if exists op :: GroupOf(d, op).Some? && g == SortedGroupOf(d, op) {
        var op :| GroupOf(d, op).Some? && g == SortedGroupOf(d, op);
        SortedGroupInScan(d, op);
      }
    }
    SortEachGroupTokens(d);
  }

  lemma SortedGroupComparator(d: seq<Entry>, g: GroupHash) returns (op: Comparator)
    requires WellFormed(d) && g in SortEachGroup(Scan(d).groups)
    ensures GroupOf(d, op).Some? && g == SortedGroupOf(d, op)
  {
    var gs := Scan(d).groups;
    var r := SortEachGroup(gs);
    var i :| 0 <= i < |r| && r[i] == g;
    op := ScanGroupComparator(d, gs[i]);
  }

  lemma SortedGroupInScan(d: seq<Entry>, op: Comparator)
    requires WellFormed(d) && GroupOf(d, op).Some?
    ensures SortedGroupOf(d, op) in SortEachGroup(Scan(d).groups)
  {
    var gs := Scan(d).groups;
    var h := GroupHash(Token(op), PairsOf(GroupOf(d, op).value));
    ComparatorInScan(d, op);
    var i :| 0 <= i < |gs| && gs[i] == h;
    assert SortEachGroup(gs)[i] == SortedGroupOf(d, op);
  }

  /** Sorting within groups keeps the groups' tokens, which are distinct. */
  lemma SortEachGroupTokens(d: seq<Entry>)
    requires WellFormed(d)
    ensures Distinct(SortEachGroup(Scan(d).groups))
    ensures KeyDetermines(SortEachGroup(Scan(d).groups), GroupToken)
  {
    ScanGroupsTokens(d);
    var gs := Scan(d).groups;
    var r := SortEachGroup(gs);
    forall i, j | 0 <= i < |r| && 0 <= j < |r| && i != j ensures GroupToken(r[i]) != GroupToken(r[j]) {
      if i < j { assert gs[i].token != gs[j].token; } else { assert gs[j].token != gs[i].token; }
    }
  }

  /** Two descriptors with the same groups: the same comparators present, and the same
      value under each (comparator, field). */
  ghost predicate SameGroups(d1: seq<Entry>, d2: seq<Entry>)
  {
    && (forall op :: GroupOf(d1, op).Some? <==> GroupOf(d2, op).Some?)
    && (forall op, f :: CondAt(d1, op, f) == CondAt(d2, op, f))
  }

  /** The emitted groups depend only on the groups' contents, not on the order of the
      groups or of the fields within them. */
  lemma GroupsCanonical(d1: seq<Entry>, d2: seq<Entry>)
    requires WellFormed(d1) && WellFormed(d2) && SameGroups(d1, d2)
    ensures SortedGroups(Scan(d1).groups) == SortedGroups(Scan(d2).groups)
  {
    SortEachGroupMembers(d1);
    SortEachGroupMembers(d2);
    var r1, r2 := SortEachGroup(Scan(d1).groups), SortEachGroup(Scan(d2).groups);
    forall op | GroupOf(d1, op).Some? ensures SortedGroupOf(d1, op) == SortedGroupOf(d2, op) {
      var cs1, cs2 := GroupOf(d1, op).value, GroupOf(d2, op).value;
      GroupFieldsUnique(d1, op);
      GroupFieldsUnique(d2, op);
      forall f ensures FieldValue(cs1, f) == FieldValue(cs2, f) {
        assert CondAt(d1, op, f) == CondAt(d2, op, f);
      }
      PairsCanonical(cs1, cs2);
    }
    forall g ensures g in r1 <==> g in r2 {
      if g in r1 {
        var op :| GroupOf(d1, op).Some? && g == SortedGroupOf(d1, op);
      }
      if g in r2 {
        var op :| GroupOf(d2, op).Some? && g == SortedGroupOf(d2, op);
      }
    }
    DistinctSameElements(r1, r2);
    SortByCanonical(r1, r2, GroupToken);
  }

  lemma SegmentForFields(seg: Segments)
    ensures SegmentFor(seg, "from") == seg.ns && SegmentFor(seg, "byKey") == seg.byKey
    ensures SegmentFor(seg, "sort") == seg.sort && SegmentFor(seg, "skip") == seg.skip
    ensures SegmentFor(seg, "limit") == seg.limit
  {
  }

  /** A fixed segment depends only on the property under its key. */
  lemma SegmentsAgree(d1: seq<Entry>, d2: seq<Entry>, k: string)
    requires k in FixedKeys
    requires Get(d1, k) == Get(d2, k)
    ensures SegmentFor(Scan(d1), k) == SegmentFor(Scan(d2), k)
  {
    ScanFixedSegment(d1, k);
    ScanFixedSegment(d2, k);
  }

  /** The namespace and fixed segments depend only on the fixed properties and the
      projection that comes last. */
  lemma HeadCanonical(d1: seq<Entry>, d2: seq<Entry>)
    requires forall k :: k in FixedKeys ==> Get(d1, k) == Get(d2, k)
    requires Projection(d1) == Projection(d2)
    ensures Head(Scan(d1)) == Head(Scan(d2))
  {
    SegmentForFields(Scan(d1));
    SegmentForFields(Scan(d2));
    SegmentsAgree(d1, d2, "from");
    SegmentsAgree(d1, d2, "byKey");
    SegmentsAgree(d1, d2, "sort");
    SegmentsAgree(d1, d2, "skip");
    SegmentsAgree(d1, d2, "limit");
    ScanProjection(d1);
    ScanProjection(d2);
  }

  /** The hash text depends only on the fixed properties, the projection that comes
      last, and the groups' contents. */
  lemma AssembleCanonical(d1: seq<Entry>, d2: seq<Entry>)
    requires WellFormed(d1) && WellFormed(d2)
    requires forall k :: k in FixedKeys ==> Get(d1, k) == Get(d2, k)
    requires Projection(d1) == Projection(d2)
    requires SameGroups(d1, d2)
    ensures Assemble(Scan(d1)) == Assemble(Scan(d2))
  {
    HeadCanonical(d1, d2);
    GroupsCanonical(d1, d2);
  }

  // ----- Order independence -----

  lemma {:induction false} FindSameKeys(a: seq<Entry>, b: seq<Entry>, k: string)
    requires |a| == |b| && forall i :: 0 <= i < |a| ==> a[i].Key() == b[i].Key()
    ensures Find(a, k) == Find(b, k)
    decreases |a|
  {
    if a != [] && a[|a| - 1].Key() != k {
      FindSameKeys(a[..|a| - 1], b[..|b| - 1], k);
    }
  }

  lemma {:induction false} FindFieldSameFields(a: seq<Cond>, b: seq<Cond>, f: string)
    requires |a| == |b| && forall i :: 0 <= i < |a| ==> a[i].field == b[i].field
    ensures FindField(a, f) == FindField(b, f)
    decreases |a|
  {
    if a != [] && a[|a| - 1].field != f {
      FindFieldSameFields(a[..|a| - 1], b[..|b| - 1], f);
    }
  }

  /** A value under a comparator as a successful hash leaves it. */
  function CanonAt(op: Comparator, v: Option<Value>): Option<Value>
  {
    if SortsArrays(op) && v.Some? then Some(CanonValue(v.value)) else v
  }

  lemma CanonEntryGroup(d: seq<Entry>, op: Comparator, f: string)
    requires WellFormed(d) && GroupOf(d, op).Some?
    ensures var i := Find(d, Name(op));
      && CanonEntry(d[i]).Group? && CanonEntry(d[i]).op == op
      && FieldValue(CanonEntry(d[i]).conds, f) == CanonAt(op, FieldValue(GroupOf(d, op).value, f))
  {
    GroupUnderName(d, op);
    var i := Find(d, Name(op));
    var cs := d[i].conds;
    var cs' := CanonEntry(d[i]).conds;
    FindFieldSameFields(cs', cs, f);
  }

  /** Hashing leaves the entry under a name that is not a comparator's where it was. */
  lemma NormalizedKeeps(d: seq<Entry>, k: string)
    requires ArraysOnly(d) && !IsReserved(k)
    ensures Find(Normalize(d).value, k) == Find(d, k)
    ensures Find(d, k) >= 0 ==> Normalize(d).value[Find(d, k)] == d[Find(d, k)]
  {
    var n := Normalize(d).value;
    FindSameKeys(n, d, k);
    var i := Find(d, k);
    if i >= 0 {
      UnreservedNotGroup(d[i]);
      assert n[i] == CanonEntry(d[i]);
    }
  }

  lemma NormalizedFixed(d: seq<Entry>)
    requires ArraysOnly(d)
    ensures forall k :: k in FixedKeys ==> Get(Normalize(d).value, k) == Get(d, k)
  {
    forall k | k in FixedKeys ensures Get(Normalize(d).value, k) == Get(d, k) {
      NormalizedKeeps(d, k);
    }
  }

  lemma NormalizedProjection(d: seq<Entry>)
    requires ArraysOnly(d)
    ensures Projection(Normalize(d).value) == Projection(d)
  {
    ProjectionNamesUnreserved();
    NormalizedKeeps(d, "only");
    NormalizedKeeps(d, "except");
    ProjectionSame(Normalize(d).value, d);
  }

  lemma ProjectionNamesUnreserved()
    ensures !IsReserved("only") && !IsReserved("except")
  {
  }

  /** Descriptors that hold the same only and except at the same positions have the
      same projection. */
  lemma ProjectionSame(a: seq<Entry>, b: seq<Entry>)
    requires Find(a, "only") == Find(b, "only") && Find(a, "except") == Find(b, "except")
    requires Find(b, "only") >= 0 ==> a[Find(b, "only")] == b[Find(b, "only")]
    requires Find(b, "except") >= 0 ==> a[Find(b, "except")] == b[Find(b, "except")]
    ensures Projection(a) == Projection(b)
  {
  }

  lemma NormalizedGroups(d: seq<Entry>)
    requires WellFormed(d) && ArraysOnly(d)
    ensures forall op :: GroupOf(Normalize(d).value, op).Some? <==> GroupOf(d, op).Some?
    ensures forall op, f :: CondAt(Normalize(d).value, op, f) == CanonAt(op, CondAt(d, op, f))
  {
    forall op ensures GroupOf(Normalize(d).value, op).Some? <==> GroupOf(d, op).Some? {
      NormalizedGroupOf(d, op);
    }
    forall op, f ensures CondAt(Normalize(d).value, op, f) == CanonAt(op, CondAt(d, op, f)) {
      NormalizedCondAt(d, op, f);
    }
  }

  lemma NormalizedCondAt(d: seq<Entry>, op: Comparator, f: string)
    requires WellFormed(d) && ArraysOnly(d)
    ensures CondAt(Normalize(d).value, op, f) == CanonAt(op, CondAt(d, op, f))
  {
    var n := Normalize(d).value;
    CanonicalFind(d, n, Name(op));
    var i := Find(d, Name(op));
    if i >= 0 {
      CanonicalGroupRead(d, n[i], op, f);
      CondAtFound(n, op, f);
    } else {
      CondAtFound(n, op, f);
      CondAtFound(d, op, f);
    }
  }

  /** What CondAt reads: the field of the property found under the comparator's name. */
  lemma CondAtFound(d: seq<Entry>, op: Comparator, f: string)
    ensures Find(d, Name(op)) < 0 ==> CondAt(d, op, f).None?
    ensures Find(d, Name(op)) >= 0 && d[Find(d, Name(op))].Group? ==>
      CondAt(d, op, f) == FieldValue(d[Find(d, Name(op))].conds, f)
  {
  }

  /** Sorting arrays keeps every property's name, so lookups find the same positions. */
  lemma CanonicalFind(d: seq<Entry>, n: seq<Entry>, k: string)
    requires |n| == |d| && forall i :: 0 <= i < |d| ==> n[i] == CanonEntry(d[i])
    ensures Find(n, k) == Find(d, k)
  {
    forall j | 0 <= j < |d| ensures n[j].Key() == d[j].Key() { }
    FindSameKeys(n, d, k);
  }

  /** The canonical form of op's group holds the canonical form of each value. */
  lemma CanonicalGroupRead(d: seq<Entry>, e: Entry, op: Comparator, f: string)
    requires WellFormed(d) && Find(d, Name(op)) >= 0
    requires e == CanonEntry(d[Find(d, Name(op))])
    ensures e.Group? && e.op == op
    ensures FieldValue(e.conds, f) == CanonAt(op, CondAt(d, op, f))
  {
    GroupUnderName(d, op);
    CanonEntryGroup(d, op, f);
  }

  lemma NormalizedGroupOf(d: seq<Entry>, op: Comparator)
    requires WellFormed(d) && ArraysOnly(d)
    ensures GroupOf(Normalize(d).value, op).Some? <==> GroupOf(d, op).Some?
  {
    var n := Normalize(d).value;
    CanonicalFind(d, n, Name(op));
    GroupUnderName(d, op);
    GroupOfFound(n, op);
    GroupOfFound(d, op);
    var i := Find(d, Name(op));
    if i >= 0 {
      assert n[i] == CanonEntry(d[i]);
    }
  }

  lemma GroupOfFound(d: seq<Entry>, op: Comparator)
    ensures GroupOf(d, op).Some? <==> Find(d, Name(op)) >= 0 && d[Find(d, Name(op))].Group?
  {
  }

  lemma NormalizedWellFormed(d: seq<Entry>)
    requires WellFormed(d) && ArraysOnly(d)
    ensures WellFormed(Normalize(d).value)
  {
    var n := Normalize(d).value;
    forall i | 0 <= i < |n| && n[i].Group? ensures UniqueFields(n[i].conds) {
      assert UniqueFields(d[i].conds);
    }
  }

  /** What a successful hash does to the content of a descriptor: the fixed
      properties, the projection and the set of groups stay, and every value under
      within or contains is sorted. */
  lemma NormalizedContent(d: seq<Entry>)
    requires WellFormed(d) && ArraysOnly(d)
    ensures var n := Normalize(d).value;
      && WellFormed(n)
      && (forall k :: k in FixedKeys ==> Get(n, k) == Get(d, k))
      && Projection(n) == Projection(d)
      && (forall op :: GroupOf(n, op).Some? <==> GroupOf(d, op).Some?)
      && (forall op, f :: CondAt(n, op, f) == CanonAt(op, CondAt(d, op, f)))
  {
    NormalizedFixed(d);
    NormalizedProjection(d);
    NormalizedGroups(d);
    NormalizedWellFormed(d);
  }

  /** Every within/contains value is an array, read by (comparator, field). */
  lemma ArraysOnlyByCondAt(d: seq<Entry>)
    requires WellFormed(d)
    ensures ArraysOnly(d) <==>
      forall op, f :: SortsArrays(op) && CondAt(d, op, f).Some? ==> CondAt(d, op, f).value.JArr?
  {
    if ArraysOnly(d) {
      forall op, f | SortsArrays(op) && CondAt(d, op, f).Some? ensures CondAt(d, op, f).value.JArr? {
        CondAtIsArray(d, op, f);
      }
    }
    if forall op, f :: SortsArrays(op) && CondAt(d, op, f).Some? ==> CondAt(d, op, f).value.JArr? {
      forall i, j | 0 <= i < |d| && d[i].Group? && SortsArrays(d[i].op) && 0 <= j < |d[i].conds|
        ensures d[i].conds[j].value.JArr?
      {
        CondAtOfPosition(d, i, j);
      }
    }
  }

  lemma CondAtIsArray(d: seq<Entry>, op: Comparator, f: string)
    requires WellFormed(d) && ArraysOnly(d)
    requires SortsArrays(op) && CondAt(d, op, f).Some?
    ensures CondAt(d, op, f).value.JArr?
  {
    GroupUnderName(d, op);
    var i := Find(d, Name(op));
    var j := FindField(d[i].conds, f);
    assert CondAt(d, op, f).value == d[i].conds[j].value;
  }

  /** In a well-formed descriptor, every stored value is read back by its
      (comparator, field). */
  lemma CondAtOfPosition(d: seq<Entry>, i: nat, j: nat)
    requires WellFormed(d) && i < |d| && d[i].Group? && j < |d[i].conds|
    ensures CondAt(d, d[i].op, d[i].conds[j].field) == Some(d[i].conds[j].value)
  {
    FindUnique(d, i);
    FindFieldUnique(d[i].conds, j);
  }

  /** Two specs for the same (comparator, field) that hash alike: the same value, or,
      under within or contains, two arrays holding the same elements, no two of which
      render to the same string unless they are equal. */
  ghost predicate SameSpec(op: Comparator, a: Option<Value>, b: Option<Value>)
  {
    || a == b
    || (&& SortsArrays(op) && a.Some? && b.Some? && a.value.JArr? && b.value.JArr?
        && multiset(a.value.elems) == multiset(b.value.elems)
        && KeyDetermines(a.value.elems, JsString))
  }

  /** Two descriptors holding the same query: the same from, byKey, sort, skip and
      limit, the same last projection, the same groups present, and alike specs under
      every (comparator, field). Nothing is said about the order of groups, of fields
      within a group, or of the elements of within/contains arrays. */
  ghost predicate SameContent(d1: seq<Entry>, d2: seq<Entry>)
  {
    && (forall k :: k in FixedKeys ==> Get(d1, k) == Get(d2, k))
    && Projection(d1) == Projection(d2)
    && (forall op :: GroupOf(d1, op).Some? <==> GroupOf(d2, op).Some?)
    && (forall op, f :: SameSpec(op, CondAt(d1, op, f), CondAt(d2, op, f)))
  }

  /** Descriptors with the same content throw alike: a within/contains value that is
      not an array in one is the same value in the other. */
  lemma ArraysOnlyAlike(d1: seq<Entry>, d2: seq<Entry>)
    requires WellFormed(d1) && WellFormed(d2) && SameContent(d1, d2)
    ensures ArraysOnly(d1) <==> ArraysOnly(d2)
  {
    ArraysOnlyByCondAt(d1);
    ArraysOnlyByCondAt(d2);
    forall op, f ensures CondAt(d1, op, f).Some? <==> CondAt(d2, op, f).Some?
    ensures CondAt(d1, op, f).Some? && SortsArrays(op) ==>
      (CondAt(d1, op, f).value.JArr? <==> CondAt(d2, op, f).value.JArr?)
    {
      assert SameSpec(op, CondAt(d1, op, f), CondAt(d2, op, f));
    }
  }

  /** Alike specs become equal once within/contains arrays are sorted. */
  lemma CanonAlike(d1: seq<Entry>, d2: seq<Entry>)
    requires SameContent(d1, d2)
    ensures forall op, f :: CanonAt(op, CondAt(d1, op, f)) == CanonAt(op, CondAt(d2, op, f))
  {
    forall op, f ensures CanonAt(op, CondAt(d1, op, f)) == CanonAt(op, CondAt(d2, op, f)) {
      var a, b := CondAt(d1, op, f), CondAt(d2, op, f);
      assert SameSpec(op, a, b);
      if a != b {
        SortByCanonical(a.value.elems, b.value.elems, JsString);
      }
    }
  }

  /** Descriptors with the same content and only arrays under within/contains give
      the same text once normalised. */
  lemma NormalizedAlike(d1: seq<Entry>, d2: seq<Entry>)
    requires WellFormed(d1) && WellFormed(d2) && ArraysOnly(d1) && ArraysOnly(d2)
    requires SameContent(d1, d2)
    ensures Assemble(Scan(Normalize(d1).value)) == Assemble(Scan(Normalize(d2).value))
  {
    CanonAlike(d1, d2);
    NormalizedContent(d1);
    NormalizedContent(d2);
    var n1, n2 := Normalize(d1).value, Normalize(d2).value;
    assert SameGroups(n1, n2);
    AssembleCanonical(n1, n2);
  }

  /** The hash is order-independent: descriptors with the same content both hash to
      the same text, or both throw. */
  lemma HashOrderIndependent(d1: seq<Entry>, d2: seq<Entry>)
    requires WellFormed(d1) && WellFormed(d2) && SameContent(d1, d2)
    ensures HashOf(d1).Ok? <==> HashOf(d2).Ok?
    ensures HashOf(d1).Ok? ==> HashOf(d1) == HashOf(d2)
  {
    ArraysOnlyAlike(d1, d2);
    if ArraysOnly(d1) {
      NormalizedAlike(d1, d2);
    }
  }

  /** In a descriptor without repeated names, what is read under k is the entry
      named k, if any. */
  lemma GetByMembership(d: seq<Entry>, k: string)
    requires UniqueKeys(d)
    ensures Get(d, k).Some? ==> Get(d, k).value in d && Get(d, k).value.Key() == k
    ensures forall i :: 0 <= i < |d| && d[i].Key() == k ==> Get(d, k) == Some(d[i])
  {
    forall i | 0 <= i < |d| && d[i].Key() == k ensures Get(d, k) == Some(d[i]) {
      FindUnique(d, i);
    }
  }

  /** Descriptors that are reorderings of each other read the same under every name. */
  lemma PermutationSameGets(d1: seq<Entry>, d2: seq<Entry>, k: string)
    requires UniqueKeys(d1) && UniqueKeys(d2)
    requires multiset(d1) == multiset(d2)
    ensures Get(d1, k) == Get(d2, k)
  {
    GetByMembership(d1, k);
    GetByMembership(d2, k);
    if Get(d1, k).Some? {
      var e := Get(d1, k).value;
      assert e in multiset(d2);
      var i :| 0 <= i < |d2| && d2[i] == e;
    }
    if Get(d2, k).Some? {
      var e := Get(d2, k).value;
      assert e in multiset(d1);
      var i :| 0 <= i < |d1| && d1[i] == e;
    }
  }

  /** With at most one of only and except, the projection is that one. */
  lemma ProjectionOfOne(d: seq<Entry>)
    requires Get(d, "only").None? || Get(d, "except").None?
    ensures Projection(d) == if Get(d, "only").Some? then Get(d, "only") else Get(d, "except")
  {
  }

  /** Reordering the properties of a descriptor does not change its hash, as long as
      it does not hold both only and except (whichever of those comes last wins). */
  lemma HashPermutationInvariant(d1: seq<Entry>, d2: seq<Entry>)
    requires WellFormed(d1) && WellFormed(d2)
    requires multiset(d1) == multiset(d2)
    requires Get(d1, "only").None? || Get(d1, "except").None?
    ensures HashOf(d1).Ok? <==> HashOf(d2).Ok?
    ensures HashOf(d1).Ok? ==> HashOf(d1) == HashOf(d2)
  {
    forall k ensures Get(d1, k) == Get(d2, k) {
      PermutationSameGets(d1, d2, k);
    }
    ProjectionOfOne(d1);
    ProjectionOfOne(d2);
    forall op ensures GroupOf(d1, op) == GroupOf(d2, op) {
      assert Get(d1, Name(op)) == Get(d2, Name(op));
    }
    forall op, f ensures CondAt(d1, op, f) == CondAt(d2, op, f) {
      assert GroupOf(d1, op) == GroupOf(d2, op);
    }
    HashOrderIndependent(d1, d2);
  }
}
