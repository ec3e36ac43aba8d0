/** The QueryBuilder object: its two fields, the methods that update them in place,
    fromJSON, and the hash. Each method is proved to perform the transition the
    functions of modules Builder, Codec and Hashing specify. */
module Queries {
  import opened Wrappers
  import opened Values
  import opened Descriptor
  import opened Builder
  import opened Codec
  import opened Hashing
  import opened HashProperties
  import opened HashSteps

  class QueryBuilder {
    /** `_json`: the descriptor. */
    var json: seq<Entry>
    /** `_currField`: the field comparators write under; None until where names one. */
    var currField: Option<string>

    /** The builder's state as a value. */
    function View(): State
      reads this
    {
      State(json, currField)
    }

    /** The descriptor is one the builder's own operations produce. */
    ghost predicate Valid()
      reads this
    {
      BuilderMade(json)
    }

    /** `new QueryBuilder()`: an empty descriptor and no field. */
    constructor ()
      ensures Valid()
      ensures View() == Empty
    {
      json := [];
      currField := None;
    }

    // ----- Setters -----

    method From(ns: string)
      requires Valid()
      modifies this
      ensures Valid()
      ensures View() == Assign(old(View()), Entry.From(ns))
    {
      SetEntryWellFormed(json, Entry.From(ns));
      json := SetEntry(json, Entry.From(ns));
    }

    method ByKey(key: Value)
      requires Valid()
      modifies this
      ensures Valid()
      ensures View() == Assign(old(View()), Entry.ByKey(key))
    {
      SetEntryWellFormed(json, Entry.ByKey(key));
      json := SetEntry(json, Entry.ByKey(key));
    }

    method Sort(spec: seq<string>)
      requires Valid()
      modifies this
      ensures Valid()
      ensures View() == Assign(old(View()), Entry.Sort(spec))
    {
      SetEntryWellFormed(json, Entry.Sort(spec));
      json := SetEntry(json, Entry.Sort(spec));
    }

    method Skip(n: int)
      requires Valid()
      modifies this
      ensures Valid()
      ensures View() == Assign(old(View()), Entry.Skip(n))
    {
      SetEntryWellFormed(json, Entry.Skip(n));
      json := SetEntry(json, Entry.Skip(n));
    }

    method Limit(n: int)
      requires Valid()
      modifies this
      ensures Valid()
      ensures View() == Assign(old(View()), Entry.Limit(n))
    {
      SetEntryWellFormed(json, Entry.Limit(n));
      json := SetEntry(json, Entry.Limit(n));
    }

    method Only(fields: seq<string>)
      requires Valid()
      modifies this
      ensures Valid()
      ensures View() == Assign(old(View()), Entry.Only(fields))
    {
      SetEntryWellFormed(json, Entry.Only(fields));
      json := SetEntry(json, Entry.Only(fields));
    }

    method Except(fields: seq<string>)
      requires Valid()
      modifies this
      ensures Valid()
      ensures View() == Assign(old(View()), Entry.Except(fields))
    {
      SetEntryWellFormed(json, Entry.Except(fields));
      json := SetEntry(json, Entry.Except(fields));
    }

    method Find()
      requires Valid()
      modifies this
      ensures Valid()
      ensures View() == Assign(old(View()), Entry.Type("find"))
    {
      SetEntryWellFormed(json, Entry.Type("find"));
      json := SetEntry(json, Entry.Type("find"));
    }

    method FindOne()
      requires Valid()
      modifies this
      ensures Valid()
      ensures View() == Assign(old(View()), Entry.Type("findOne"))
    {
      SetEntryWellFormed(json, Entry.Type("findOne"));
      json := SetEntry(json, Entry.Type("findOne"));
    }

    /** equals, notEquals, gt, gte, lt, lte, within, contains: store val under the
        current field in op's group, creating the group on first use. */
    method Compare(op: Comparator, val: Value)
      requires Valid()
      modifies this
      ensures Valid()
      ensures View() == Builder.Compare(old(View()), op, val)
    {
      var field := CursorField(currField);
      AddConditionLookup(json, op, field, val);
      var i := Descriptor.Find(json, Name(op));
      if i < 0 {
        json := json + [Group(op, [Cond(field, val)])];
      } else if json[i].Group? {
        json := json[i := Group(op, PutCond(json[i].conds, field, val))];
      }
    }

    /** The descriptor that toJSON hands out: fromJSON rebuilds it exactly. */
    function ToJSON(): (d: seq<Entry>)
      requires Valid()
      reads this
      ensures FromWire(d).Ok? && FromWire(d).value.json == d
    {
      RoundTrip(json); json
    }

    // ----- where -----

    /** where(arg): a string moves the cursor; an object is walked field by field.
        A throw leaves in place whatever was done before it. */
    method Where(arg: Value) returns (outcome: Outcome)
      requires Valid()
      modifies this
      ensures Valid()
      ensures Run(View(), outcome) == Builder.Where(old(View()), arg)
    {
      WhereKeepsBuilderMade(View(), arg);
      match arg {
        case JStr(f) =>
          currField := Some(f);
          outcome := Done;
        case JObj(ms) =>
          var i := 0;
          while i < |ms|
            invariant 0 <= i <= |ms|
            invariant Valid()
            invariant WhereFields(old(View()), ms) == WhereFields(View(), ms[i..])
          {
            WhereFieldsStep(View(), ms, i);
            var o := WhereMember(ms[i]);
            if o.Failed? { return o; }
            i := i + 1;
          }
          outcome := Done;
        case JNull =>
          outcome := Failed(NullWhere);
        case _ =>
          outcome := Failed(InvalidWhere);
      }
    }

    /** One field of where's object form: null throws, an object with a comparator
        key is applied comparator by comparator, anything else is stored under equals. */
    method WhereMember(m: Member) returns (outcome: Outcome)
      requires Valid()
      modifies this
      ensures Valid()
      ensures Run(View(), outcome) == WhereField(old(View()), m)
    {
      currField := Some(m.name);
      match m.value {
        case JNull =>
          outcome := Failed(NullSpec(m.name));
        case JObj(spec) =>
          var reserved := AnyReservedKey(spec);
          if reserved {
            outcome := ApplySpec(m.name, spec);
          } else {
            Compare(Equals, m.value);
            outcome := Done;
          }
        case _ =>
          Compare(Equals, m.value);
          outcome := Done;
      }
    }

    /** keyMatch(spec, isReserved): whether some key of the spec names a comparator. */
    static method AnyReservedKey(spec: seq<Member>) returns (found: bool)
      ensures found <==> exists k :: 0 <= k < |spec| && IsReserved(spec[k].name)
    {
      var k := 0;
      while k < |spec|
        invariant 0 <= k <= |spec|
        invariant forall j :: 0 <= j < k ==> !IsReserved(spec[j].name)
      {
        if IsReserved(spec[k].name) { return true; }
        k := k + 1;
      }
      return false;
    }

    /** `for (comparator in arg) this[comparator](arg[comparator])`. */
    method ApplySpec(field: string, spec: seq<Member>) returns (outcome: Outcome)
      requires Valid()
      modifies this
      ensures Valid()
      ensures Run(View(), outcome) == ApplyComparators(old(View()), field, spec)
    {
      ApplyComparatorsKeepsBuilderMade(View(), field, spec);
      var j := 0;
      while j < |spec|
        invariant 0 <= j <= |spec|
        invariant Valid()
        invariant ApplyComparators(old(View()), field, spec) == ApplyComparators(View(), field, spec[j..])
      {
        assert spec[j..][0] == spec[j] && spec[j..][1..] == spec[j + 1..];
        match ComparatorNamed(spec[j].name) {
          case None => return Failed(NotAComparator(field, spec[j].name));
          case Some(op) => Compare(op, spec[j].value);
        }
        j := j + 1;
      }
      return Done;
    }

    // ----- The constructor's configuration -----

    /** The constructor's loop: each configuration property in turn, the first one
        outside the whitelist throwing. */
    method Configure(params: seq<Param>) returns (outcome: Outcome)
      requires Valid()
      modifies this
      ensures Valid()
      ensures Run(View(), outcome) == Builder.Configure(old(View()), params)
    {
      ConfigureKeepsBuilderMade(View(), params);
      var i := 0;
      while i < |params|
        invariant 0 <= i <= |params|
        invariant Valid()
        invariant Builder.Configure(old(View()), params) == Builder.Configure(View(), params[i..])
      {
        ConfigureStep(View(), params, i);
        var o := ApplyParam(params[i]);
        if o.Failed? { return o; }
        i := i + 1;
      }
      return Done;
    }

    /** One configuration property: a whitelisted setter is called with its value,
        any other name throws. */
    method ApplyParam(p: Param) returns (outcome: Outcome)
      requires Valid()
      modifies this
      ensures Valid()
      ensures Run(View(), outcome) == Configure1(old(View()), p)
    {
      outcome := Done;
      match p {
        case PFrom(ns) => From(ns);
        case PByKey(k) => ByKey(k);
        case PWhere(arg) => outcome := Where(arg);
        case PSkip(n) => Skip(n);
        case PLimit(n) => Limit(n);
        case PSort(spec) => Sort(spec);
        case PExcept(fs) => Except(fs);
        case POnly(fs) => Only(fs);
        case PUnknown(name, _) => outcome := Failed(UnknownOperator(name));
      }
    }

    /** `new QueryBuilder(params)`: a builder configured by params, or the error the
        configuration throws. */
    static method Create(params: seq<Param>) returns (r: Result<QueryBuilder, Error>)
      ensures r.Ok? <==> Builder.Configure(Empty, params).outcome.Done?
      ensures r.Ok? ==> fresh(r.value) && r.value.Valid()
      ensures r.Ok? ==> r.value.View() == Builder.Configure(Empty, params).state
      ensures r.Err? ==> Builder.Configure(Empty, params).outcome == Failed(r.error)
    {
      var q := new QueryBuilder();
      var o := q.Configure(params);
      if o.Failed? { return Err(o.error); }
      return Ok(q);
    }

    // ----- fromJSON -----

    /** QueryBuilder.fromJSON(json): a new builder that replays every property of
        json, or the error for the first property it does not accept. */
    static method FromJSON(wire: seq<Entry>) returns (r: Result<QueryBuilder, Error>)
      ensures r.Ok? <==> FromWire(wire).Ok?
      ensures r.Ok? ==> fresh(r.value) && r.value.Valid()
      ensures r.Ok? ==> r.value.View() == FromWire(wire).value
      ensures r.Err? ==> FromWire(wire) == Err(r.error)
    {
      var q := new QueryBuilder();
      var i := 0;
      while i < |wire|
        invariant 0 <= i <= |wire|
        invariant fresh(q) && q.Valid()
        invariant FromWire(wire) == Replay(q.View(), wire[i..])
      {
        assert wire[i..][0] == wire[i] && wire[i..][1..] == wire[i + 1..];
        var o := q.Put(wire[i]);
        if o.Failed? { return Err(o.error); }
        i := i + 1;
      }
      return Ok(q);
    }

    /** The body of fromJSON's loop for one property: the matching builder call, or
        the error for a name or type it does not know. */
    method Put(e: Entry) returns (outcome: Outcome)
      requires Valid()
      modifies this
      ensures Valid()
      ensures outcome.Done? <==> ReplayEntry(old(View()), e).Ok?
      ensures outcome.Done? ==> View() == ReplayEntry(old(View()), e).value
      ensures outcome.Failed? ==> ReplayEntry(old(View()), e) == Err(outcome.error)
    {
      outcome := Done;
      match e {
        case Type(kind) =>
          if kind == "find" {
            Find();
          } else if kind == "findOne" {
            FindOne();
          } else {
            outcome := Failed(UnknownType(kind));
          }
        case From(ns) => From(ns);
        case ByKey(k) => ByKey(k);
        case Sort(spec) => Sort(spec);
        case Skip(n) => Skip(n);
        case Limit(n) => Limit(n);
        case Only(fs) => Only(fs);
        case Except(fs) => Except(fs);
        case Group(op, cs) => PutGroup(op, cs);
        case Extra(name, _) => outcome := Failed(UnknownProperty(name));
      }
    }

    /** `q.where(field)[op](value)` for each field of a group, in order. */
    method PutGroup(op: Comparator, cs: seq<Cond>)
      requires Valid()
      modifies this
      ensures Valid()
      ensures View() == ReplayConds(old(View()), op, cs)
    {
      var j := 0;
      while j < |cs|
        invariant 0 <= j <= |cs|
        invariant Valid()
        invariant ReplayConds(old(View()), op, cs) == ReplayConds(View(), op, cs[j..])
      {
        ReplayCondsStep(View(), op, cs, j);
        ghost var s := View();
        var _ := Where(JStr(cs[j].field));
        assert View() == Select(s, cs[j].field);
        Compare(op, cs[j].value);
        j := j + 1;
      }
    }

    // ----- hash -----

    /** proto.hash: hashes the builder's own descriptor, sorting its within/contains
        arrays in place. */
    method Hash() returns (r: Result<Option<string>, Error>)
      requires Valid()
      modifies this
      ensures Valid()
      ensures json == Normalize(old(json)).value
      ensures currField == old(currField)
      ensures r == HashOf(old(json))
    {
      NormalizeKeepsBuilderMade(json);
      var sorted;
      sorted, r := HashDescriptor(json);
      json := sorted;
    }

    /** QueryBuilder.hash(json). The descriptor the caller passed is returned as the
        hash leaves it (its within/contains arrays sorted up to any throw). */
    static method HashDescriptor(d: seq<Entry>) returns (sorted: seq<Entry>, r: Result<Option<string>, Error>)
      ensures sorted == Normalize(d).value
      ensures r == HashOf(d)
    {
      var seg, failure;
      sorted, seg, failure := SortAndScan(d);
      if failure.Some? { return sorted, Err(failure.value); }
      var hash := seg.ns;
      if seg.byKey.Some? { hash := Some(Text(hash) + Sep + seg.byKey.value); }
      if seg.sort.Some? { hash := Some(Text(hash) + Sep + seg.sort.value); }
      if seg.select.Some? { hash := Some(Text(hash) + Sep + seg.select.value); }
      if seg.skip.Some? { hash := Some(Text(hash) + Sep + seg.skip.value); }
      if seg.limit.Some? { hash := Some(Text(hash) + Sep + seg.limit.value); }
      var ordered := SortGroups(seg.groups);
      hash := RenderAll(hash, ordered);
      return sorted, Ok(hash);
    }

    /** The hash loop over the properties: sorts the within/contains arrays in place
        and fills the segment accumulators, stopping at the first value that is not
        an array. */
    static method SortAndScan(d: seq<Entry>) returns (sorted: seq<Entry>, seg: Segments, failure: Option<Error>)
      ensures Normalize(d) == Partial(sorted, failure)
      ensures failure.None? ==> seg == Scan(sorted)
    {
      seg := NoSegments;
      sorted := d;
      var i := 0;
      while i < |d|
        invariant 0 <= i <= |d|
        invariant |sorted| == |d| && sorted[i..] == d[i..]
        invariant forall j :: 0 <= j < i ==> SortedEntry(d[j]).failure.None? && sorted[j] == SortedEntry(d[j]).value
        invariant seg == Scan(sorted[..i])
      {
        var e, f;
        e, seg, f := HashEntry(seg, d[i]);
        ghost var before := sorted;
        sorted := sorted[i := e];
        if f.Some? {
          HashLoopStops(d, i, before);
          return sorted, seg, f;
        }
        HashLoopAdvances(d, i, before, e);
        i := i + 1;
      }
      HashLoopEnds(d, sorted);
      assert sorted[..|d|] == sorted;
      failure := None;
    }

    /** One pass of the hash loop's body: the property as it is left, the updated
        accumulators, and the error if a within/contains value is not an array. */
    static method HashEntry(seg: Segments, e: Entry) returns (e2: Entry, seg2: Segments, failure: Option<Error>)
      ensures Partial(e2, failure) == SortedEntry(e)
      ensures failure.None? ==> seg2 == Step(seg, e2)
    {
      if e.Group? {
        e2, seg2, failure := HashGroup(seg, e.op, e.conds);
      } else {
        e2, failure := e, None;
        seg2 := HashFixed(seg, e);
      }
    }

    /** The hash loop on a property other than a comparator group. */
    static method HashFixed(seg: Segments, e: Entry) returns (seg2: Segments)
      requires !e.Group?
      ensures seg2 == Step(seg, e)
    {
      seg2 := seg;
      match e {
        case From(n) => seg2 := seg.(ns := Some(n));
        case ByKey(k) => seg2 := seg.(byKey := Some("$k" + Sep + Stringify(k)));
        case Only(fs) =>
          var t := FieldListText(fs);
          seg2 := seg.(select := Some("$o" + t));
        case Except(fs) =>
          var t := FieldListText(fs);
          seg2 := seg.(select := Some("$e" + t));
        case Sort(spec) =>
          var t := SortText(spec);
          seg2 := seg.(sort := Some("$s" + Sep + t));
        case Skip(n) => seg2 := seg.(skip := Some("$sk" + Sep + IntToDecimal(n)));
        case Limit(n) => seg2 := seg.(limit := Some("$L" + Sep + IntToDecimal(n)));
        case Type(_) =>
        case Extra(_, _) =>
      }
    }

    /** The hash loop on a comparator group: within/contains arrays are sorted in
        place, then the group's pairs are collected. */
    static method HashGroup(seg: Segments, op: Comparator, cs: seq<Cond>)
      returns (e2: Entry, seg2: Segments, failure: Option<Error>)
      ensures Partial(e2, failure) == SortedEntry(Group(op, cs))
      ensures failure.None? ==> seg2 == Step(seg, e2)
    {
      e2, seg2, failure := Group(op, cs), seg, None;
      var conds := cs;
      if SortsArrays(op) {
        var p := SortGroupArrays(op, cs);
        e2, failure := Group(op, p.value), p.failure;
        if failure.Some? { return; }
        conds := p.value;
      }
      var pairs := GroupPairs(conds);
      seg2 := seg.(groups := seg.groups + [GroupHash(Token(op), pairs)]);
    }

    /** `for (k in val) val[k] = val[k].sort()` on one group. */
    static method SortGroupArrays(op: Comparator, cs: seq<Cond>) returns (p: Partial<seq<Cond>>)
      ensures p == SortArrays(op, cs)
    {
      var out := cs;
      var k := 0;
      while k < |cs|
        invariant 0 <= k <= |cs|
        invariant |out| == |cs| && out[k..] == cs[k..]
        invariant forall j :: 0 <= j < k ==> cs[j].value.JArr? && out[j] == Canon(cs[j])
      {
        match cs[k].value {
          case JArr(xs) =>
            out := out[k := Cond(cs[k].field, JArr(SortArray(xs)))];
          case _ =>
            SortArraysStops(op, cs, k, out);
            return Partial(out, Some(NotAnArray(op, cs[k].field)));
        }
        k := k + 1;
      }
      SortArraysEnds(op, cs, out);
      return Partial(out, None);
    }

    /** `selectHash += SEP + field` for each field. */
    static method FieldListText(fields: seq<string>) returns (t: string)
      ensures t == FieldList(fields)
    {
      t := "";
      var k := 0;
      while k < |fields|
        invariant 0 <= k <= |fields|
        invariant t == FieldList(fields[..k])
      {
        assert fields[..k + 1][..k] == fields[..k];
        t := t + Sep + fields[k];
        k := k + 1;
      }
      assert fields[..|fields|] == fields;
    }

    /** `sortHash += field + SEP + ABBREVS[val[i+1]]`, two positions at a time. */
    static method SortText(spec: seq<string>) returns (t: string)
      ensures t == SortPairs(spec, 0)
    {
      t := "";
      var k := 0;
      while k < |spec|
        invariant t + SortPairs(spec, k) == SortPairs(spec, 0)
      {
        var dir := if k + 1 < |spec| then Some(spec[k + 1]) else None;
        t := t + spec[k] + Sep + DirToken(dir);
        k := k + 2;
      }
    }

    /** `fields.push([field, JSON.stringify(val[field])])` for each field. */
    static method GroupPairs(cs: seq<Cond>) returns (ps: seq<Pair>)
      ensures ps == PairsOf(cs)
    {
      ps := [];
      var k := 0;
      while k < |cs|
        invariant 0 <= k <= |cs|
        invariant ps == PairsOf(cs[..k])
      {
        assert cs[..k + 1][..k] == cs[..k];
        ps := ps + [Pair(cs[k].field, Stringify(cs[k].value))];
        k := k + 1;
      }
      assert cs[..|cs|] == cs;
    }

    /** Sorts each group's pairs by field (last group first), then the groups by
        token. */
    static method SortGroups(groups: seq<GroupHash>) returns (ordered: seq<GroupHash>)
      ensures ordered == SortedGroups(groups)
    {
      var gs := groups;
      var k := |groups|;
      while k > 0
        invariant 0 <= k <= |groups|
        invariant |gs| == |groups| && gs[..k] == groups[..k]
        invariant gs[k..] == SortEachGroup(groups)[k..]
      {
        k := k - 1;
        gs := gs[k := GroupHash(gs[k].token, Ordering.SortBy(gs[k].pairs, PairField))];
      }
      ordered := Ordering.SortBy(gs, GroupToken);
    }

    /** `hash += SEP + SEP + token`, then `hash += SEP + field + SEP + val` per pair,
        for each group in order. */
    static method RenderAll(head: Option<string>, gs: seq<GroupHash>) returns (hash: Option<string>)
      ensures hash == RenderGroups(head, gs)
    {
      hash := head;
      var k := 0;
      while k < |gs|
        invariant 0 <= k <= |gs|
        invariant hash == RenderGroups(head, gs[..k])
      {
        RenderGroupsStep(head, gs, k);
        hash := RenderOne(hash, gs[k]);
        k := k + 1;
      }
      assert gs[..|gs|] == gs;
    }

    /** `hash += SEP + SEP + token`, then `hash += SEP + field + SEP + val` per pair. */
    static method RenderOne(h: Option<string>, g: GroupHash) returns (hash: Option<string>)
      ensures hash == RenderGroup(h, g)
    {
      hash := Some(Text(h) + Sep + Sep + g.token);
      ghost var start := hash;
      var j := 0;
      while j < |g.pairs|
        invariant 0 <= j <= |g.pairs|
        invariant hash == RenderPairs(start, g.pairs[..j])
      {
        RenderPairsStep(start, g.pairs, j);
        hash := Some(Text(hash) + Sep + g.pairs[j].field + Sep + g.pairs[j].text);
        j := j + 1;
      }
      assert g.pairs[..|g.pairs|] == g.pairs;
    }
  }
}
