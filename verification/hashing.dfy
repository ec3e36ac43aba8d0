/** QueryBuilder.hash: a canonical text for a descriptor. Within/contains arrays are
    sorted in place first; then fixed segments are read off the properties, and the
    comparator groups are emitted sorted by token, each with its fields sorted by name. */
module Hashing {
  import opened Wrappers
  import opened Values
  import opened Descriptor
  import opened Ordering

  const Sep := ":"

  /** ABBREVS: the abbreviation table of the hash. */
  function Abbrev(name: string): Option<string>
  {
    match name
    case "byKey" => Some("$k")
    case "only" => Some("$o")
    case "except" => Some("$e")
    case "sort" => Some("$s")
    case "asc" => Some("^")
    case "desc" => Some("v")
    case "skip" => Some("$sk")
    case "limit" => Some("$L")
    case _ =>
      match ComparatorNamed(name)
      case Some(op) => Some(Token(op))
      case None => None
  }

  // ----- In-place sorting of within/contains arrays -----

  /** A value computed up to the first failure, with that failure if any. */
  datatype Partial<T> = Partial(value: T, failure: Option<Error>)

  /** `xs.sort()` with no comparison: a stable sort on String(x). */
  function SortArray(xs: seq<Value>): seq<Value>
  {
    SortBy(xs, JsString)
  }

  /** An array sorted; any other value as it is. */
  function CanonValue(v: Value): Value
  {
    match v
    case JArr(xs) => JArr(SortArray(xs))
    case _ => v
  }

  /** A cond whose array value has been sorted; any other cond as it is. */
  function Canon(c: Cond): Cond
  {
    Cond(c.field, CanonValue(c.value))
  }

  /** `for (k in val) val[k] = val[k].sort()`: sorts each value of a within/contains
      group; a value that is not an array has no sort method and throws, leaving the
      values before it sorted and the rest as they were. */
  function SortArrays(op: Comparator, cs: seq<Cond>): (r: Partial<seq<Cond>>)
    ensures |r.value| == |cs|
    ensures forall i :: 0 <= i < |cs| ==> r.value[i] == cs[i] || r.value[i] == Canon(cs[i])
    ensures r.failure.None? <==> forall i :: 0 <= i < |cs| ==> cs[i].value.JArr?
    ensures r.failure.None? ==> forall i :: 0 <= i < |cs| ==> r.value[i] == Canon(cs[i])
    ensures r.failure.Some? ==>
      exists i :: 0 <= i < |cs| && !cs[i].value.JArr? && r.failure == Some(NotAnArray(op, cs[i].field))
    decreases |cs|
  {
    if cs == [] then Partial([], None)
    else match cs[0].value
      case JArr(xs) =>
        var rest := SortArrays(op, cs[1..]);
        Partial([Canon(cs[0])] + rest.value, rest.failure)
      case _ => Partial(cs, Some(NotAnArray(op, cs[0].field)))
  }

  /** What hashing does to one property when it succeeds. */
  function CanonEntry(e: Entry): Entry
  {
    if e.Group? && SortsArrays(e.op) then
      Group(e.op, seq(|e.conds|, i requires 0 <= i < |e.conds| => Canon(e.conds[i])))
    else e
  }

  /** The property holds arrays only, if it is a within/contains group. */
  ghost predicate EntryArraysOnly(e: Entry)
  {
    e.Group? && SortsArrays(e.op) ==> forall j :: 0 <= j < |e.conds| ==> e.conds[j].value.JArr?
  }

  /** Every within/contains value is an array. */
  ghost predicate ArraysOnly(d: seq<Entry>)
  {
    forall i :: 0 <= i < |d| ==> EntryArraysOnly(d[i])
  }

  /** What normalisation does to one property: the property as it is left, and the
      error if a within/contains value is not an array. */
  function SortedEntry(e: Entry): (r: Partial<Entry>)
    ensures r.value.Key() == e.Key()
    ensures r.failure.None? <==> EntryArraysOnly(e)
    ensures r.failure.None? ==> r.value == CanonEntry(e)
  {
    if e.Group? && SortsArrays(e.op) then
      var g := SortArrays(e.op, e.conds);
      Partial(Group(e.op, g.value), g.failure)
    else Partial(e, None)
  }

  /** The descriptor as the hash leaves it: the within/contains groups are sorted in
      property order until a value that is not an array throws. */
  function Normalize(d: seq<Entry>): (r: Partial<seq<Entry>>)
    ensures |r.value| == |d|
    ensures forall i :: 0 <= i < |d| ==> r.value[i].Key() == d[i].Key()
    ensures r.failure.None? <==> ArraysOnly(d)
    ensures r.failure.None? ==> forall i :: 0 <= i < |d| ==> r.value[i] == CanonEntry(d[i])
    decreases |d|
  {
    if d == [] then Partial([], None)
    else
      var h := SortedEntry(d[0]);
      ArraysOnlyCons(d);
      if h.failure.Some? then
        ConsKeys(h.value, d[1..], d);
        Partial([h.value] + d[1..], h.failure)
      else
        var rest := Normalize(d[1..]);
        ConsKeys(h.value, rest.value, d);
        if rest.failure.None? then
          ConsCanon(h.value, rest.value, d);
          Partial([h.value] + rest.value, rest.failure)
        else Partial([h.value] + rest.value, rest.failure)
  }

  /** Putting a property with the first key in front of properties with the keys
      of the rest keeps the keys of the whole. */
  lemma ConsKeys(h: Entry, tail: seq<Entry>, d: seq<Entry>)
    requires d != [] && h.Key() == d[0].Key() && |tail| == |d| - 1
    requires forall i :: 0 <= i < |tail| ==> tail[i].Key() == d[1..][i].Key()
    ensures forall i :: 0 <= i < |d| ==> ([h] + tail)[i].Key() == d[i].Key()
  {
    forall i | 0 <= i < |d|
      ensures ([h] + tail)[i].Key() == d[i].Key()
    {
      if i > 0 {
        assert ([h] + tail)[i] == tail[i - 1] && d[1..][i - 1] == d[i];
      }
    }
  }

  /** The same for the canonical form of each property. */
  lemma ConsCanon(h: Entry, tail: seq<Entry>, d: seq<Entry>)
    requires d != [] && h == CanonEntry(d[0]) && |tail| == |d| - 1
    requires forall i :: 0 <= i < |tail| ==> tail[i] == CanonEntry(d[1..][i])
    ensures forall i :: 0 <= i < |d| ==> ([h] + tail)[i] == CanonEntry(d[i])
  {
    forall i | 0 <= i < |d|
      ensures ([h] + tail)[i] == CanonEntry(d[i])
    {
      if i > 0 {
        assert ([h] + tail)[i] == tail[i - 1] && d[1..][i - 1] == d[i];
      }
    }
  }

  lemma ArraysOnlyCons(d: seq<Entry>)
    requires d != []
    ensures ArraysOnly(d) <==> EntryArraysOnly(d[0]) && ArraysOnly(d[1..])
  {
    if EntryArraysOnly(d[0]) && ArraysOnly(d[1..]) {
      forall i | 0 <= i < |d|
        ensures EntryArraysOnly(d[i])
      {
        if i > 0 {
          assert d[1..][i - 1] == d[i];
        }
      }
    }
  }

  /** Normalize unfolded once: the first property is handled, then the rest unless
      it failed. */
  lemma NormalizeUnfold(d: seq<Entry>)
    requires d != []
    ensures var h := SortedEntry(d[0]);
      Normalize(d) ==
        if h.failure.Some? then Partial([h.value] + d[1..], h.failure)
        else Partial([h.value] + Normalize(d[1..]).value, Normalize(d[1..]).failure)
  {
  }

  /** Normalize unfolded once at a first property that does not throw. */
  lemma NormalizeUnfoldOk(d: seq<Entry>)
    requires d != [] && SortedEntry(d[0]).failure.None?
    ensures Normalize(d) ==
      Partial([SortedEntry(d[0]).value] + Normalize(d[1..]).value, Normalize(d[1..]).failure)
  {
  }

  /** Normalize unfolded once at a first property that throws. */
  lemma NormalizeUnfoldFails(d: seq<Entry>)
    requires d != [] && SortedEntry(d[0]).failure.Some?
    ensures Normalize(d) == Partial([SortedEntry(d[0]).value] + d[1..], SortedEntry(d[0]).failure)
  {
  }

  // ----- Segments read off the properties -----

  /** One (field, JSON.stringify(value)) pair of a group. */
  datatype Pair = Pair(field: string, text: string)

  /** A group of the hash: its token and its pairs. */
  datatype GroupHash = GroupHash(token: string, pairs: seq<Pair>)

  /** The accumulators of the hash loop; None is a segment never assigned. */
  datatype Segments = Segments(
    ns: Option<string>, byKey: Option<string>, sort: Option<string>,
    select: Option<string>, skip: Option<string>, limit: Option<string>,
    groups: seq<GroupHash>)

  const NoSegments := Segments(None, None, None, None, None, None, [])

  /** The pairs of a group, in property order. */
  function PairsOf(cs: seq<Cond>): (r: seq<Pair>)
    ensures |r| == |cs|
    ensures forall i :: 0 <= i < |cs| ==> r[i] == Pair(cs[i].field, Stringify(cs[i].value))
    decreases |cs|
  {
    if cs == [] then []
    else PairsOf(cs[..|cs| - 1]) + [Pair(cs[|cs| - 1].field, Stringify(cs[|cs| - 1].value))]
  }

  /** Each field preceded by the separator. */
  function FieldList(fields: seq<string>): string
    decreases |fields|
  {
    if fields == [] then ""
    else FieldList(fields[..|fields| - 1]) + Sep + fields[|fields| - 1]
  }

  /** ABBREVS[val[i+1]]: the abbreviation of a direction, "undefined" when the name has
      none or the spec ends first. */
  function DirToken(dir: Option<string>): string
  {
    match dir
    case Some(name) => if Abbrev(name).Some? then Abbrev(name).value else "undefined"
    case None => "undefined"
  }

  /** The field/direction pairs of a sort spec from position i on, without a
      separator between pairs. */
  function SortPairs(spec: seq<string>, i: nat): string
    decreases |spec| - i
  {
    if i >= |spec| then ""
    else spec[i] + Sep + DirToken(if i + 1 < |spec| then Some(spec[i + 1]) else None)
         + SortPairs(spec, i + 2)
  }

  /** The text a fixed property contributes; None for groups and ignored properties. */
  function SegmentText(e: Entry): Option<string>
  {
    match e
    case From(ns) => Some(ns)
    case ByKey(k) => Some("$k" + Sep + Stringify(k))
    case Only(fs) => Some("$o" + FieldList(fs))
    case Except(fs) => Some("$e" + FieldList(fs))
    case Sort(spec) => Some("$s" + Sep + SortPairs(spec, 0))
    case Skip(n) => Some("$sk" + Sep + IntToDecimal(n))
    case Limit(n) => Some("$L" + Sep + IntToDecimal(n))
    case _ => None
  }

  /** The hash loop's treatment of one property: `only` and `except` share one
      accumulator; `type` and unknown properties are skipped. */
  function Step(seg: Segments, e: Entry): Segments
  {
    match e
    case From(_) => seg.(ns := SegmentText(e))
    case ByKey(_) => seg.(byKey := SegmentText(e))
    case Only(_) => seg.(select := SegmentText(e))
    case Except(_) => seg.(select := SegmentText(e))
    case Sort(_) => seg.(sort := SegmentText(e))
    case Skip(_) => seg.(skip := SegmentText(e))
    case Limit(_) => seg.(limit := SegmentText(e))
    case Group(op, cs) => seg.(groups := seg.groups + [GroupHash(Token(op), PairsOf(cs))])
    case Type(_) => seg
    case Extra(_, _) => seg
  }

  /** The hash loop over the properties, in order. */
  function Scan(d: seq<Entry>): Segments
    decreases |d|
  {
    if d == [] then NoSegments else Step(Scan(d[..|d| - 1]), d[|d| - 1])
  }

  // ----- Assembly -----

  /** A possibly undefined string as string concatenation renders it. */
  function Text(h: Option<string>): string
  {
    match h
    case None => "undefined"
    case Some(s) => s
  }

  /** `if (seg) hash += SEP + seg`. */
  function AddSegment(h: Option<string>, seg: Option<string>): Option<string>
  {
    match seg
    case None => h
    case Some(s) => Some(Text(h) + Sep + s)
  }

  /** The namespace followed by the fixed segments in their fixed order. */
  function Head(seg: Segments): Option<string>
  {
    AddSegment(AddSegment(AddSegment(AddSegment(AddSegment(
      seg.ns, seg.byKey), seg.sort), seg.select), seg.skip), seg.limit)
  }

  function PairField(p: Pair): string { p.field }

  function GroupToken(g: GroupHash): string { g.token }

  /** `group[1] = group[1].sort(comparator)` for every group. */
  function SortEachGroup(gs: seq<GroupHash>): (r: seq<GroupHash>)
    ensures |r| == |gs|
    ensures forall i :: 0 <= i < |gs| ==> r[i] == GroupHash(gs[i].token, SortBy(gs[i].pairs, PairField))
  {
    seq(|gs|, i requires 0 <= i < |gs| => GroupHash(gs[i].token, SortBy(gs[i].pairs, PairField)))
  }

  /** The groups in the order the hash emits them. */
  function SortedGroups(gs: seq<GroupHash>): seq<GroupHash>
  {
    SortBy(SortEachGroup(gs), GroupToken)
  }

  /** `hash += SEP + field + SEP + val` for each pair. */
  function RenderPairs(h: Option<string>, ps: seq<Pair>): Option<string>
    decreases |ps|
  {
    if ps == [] then h
    else
      var last := ps[|ps| - 1];
      Some(Text(RenderPairs(h, ps[..|ps| - 1])) + Sep + last.field + Sep + last.text)
  }

  /** `hash += SEP + SEP + token` followed by the group's pairs. */
  function RenderGroup(h: Option<string>, g: GroupHash): Option<string>
  {
    RenderPairs(Some(Text(h) + Sep + Sep + g.token), g.pairs)
  }

  function RenderGroups(h: Option<string>, gs: seq<GroupHash>): Option<string>
    decreases |gs|
  {
    if gs == [] then h else RenderGroup(RenderGroups(h, gs[..|gs| - 1]), gs[|gs| - 1])
  }

  /** RenderPairs over one more pair renders that pair last. */
  lemma RenderPairsStep(h: Option<string>, ps: seq<Pair>, j: nat)
    requires j < |ps|
    ensures RenderPairs(h, ps[..j + 1]) ==
      Some(Text(RenderPairs(h, ps[..j])) + Sep + ps[j].field + Sep + ps[j].text)
  {
    assert ps[..j + 1][..j] == ps[..j];
  }

  /** RenderGroups over one more group renders that group last. */
  lemma RenderGroupsStep(h: Option<string>, gs: seq<GroupHash>, k: nat)
    requires k < |gs|
    ensures RenderGroups(h, gs[..k + 1]) == RenderGroup(RenderGroups(h, gs[..k]), gs[k])
  {
    assert gs[..k + 1][..k] == gs[..k];
  }

  /** The text assembled from the segments. */
  function Assemble(seg: Segments): Option<string>
  {
    RenderGroups(Head(seg), SortedGroups(seg.groups))
  }

  /** QueryBuilder.hash(json): the text (None when it is undefined), or the error
      the array sort throws. */
  function HashOf(d: seq<Entry>): Result<Option<string>, Error>
  {
    var n := Normalize(d);
    if n.failure.Some? then Err(n.failure.value) else Ok(Assemble(Scan(n.value)))
  }
}
