/** The query descriptor (`_json`): a JavaScript object whose properties keep their
    insertion order, modelled as a sequence of entries keyed by property name. A
    comparator group is itself an object from field name to value, modelled the same way. */
module Descriptor {
  import opened Wrappers
  import opened Values

  /** The eight comparator kinds. */
  datatype Comparator = Equals | NotEquals | Gt | Gte | Lt | Lte | Within | Contains

  /** The builder method (and descriptor key) of each comparator. */
  function Name(op: Comparator): string
  {
    match op
    case Equals => "equals"
    case NotEquals => "notEquals"
    case Gt => "gt"
    case Gte => "gte"
    case Lt => "lt"
    case Lte => "lte"
    case Within => "within"
    case Contains => "contains"
  }

  /** The abbreviation of each comparator used in hashes. */
  function Token(op: Comparator): string
  {
    match op
    case Equals => "$eq"
    case NotEquals => "$ne"
    case Gt => "$gt"
    case Gte => "$gte"
    case Lt => "$lt"
    case Lte => "$lte"
    case Within => "$w"
    case Contains => "$c"
  }

  /** The comparator a reserved name stands for; None for any other name. */
  function ComparatorNamed(name: string): (r: Option<Comparator>)
    ensures r.Some? ==> Name(r.value) == name
    ensures r.None? <==> forall op: Comparator :: Name(op) != name
  {
    match name
    case "equals" => Some(Equals)
    case "notEquals" => Some(NotEquals)
    case "gt" => Some(Gt)
    case "gte" => Some(Gte)
    case "lt" => Some(Lt)
    case "lte" => Some(Lte)
    case "within" => Some(Within)
    case "contains" => Some(Contains)
    case _ => None
  }

  /** Each comparator's name is reserved, for that comparator. */
  lemma NameNamesComparator(op: Comparator)
    ensures ComparatorNamed(Name(op)) == Some(op)
  {
    match op
    case Equals =>
    case NotEquals =>
    case Gt =>
    case Gte =>
    case Lt =>
    case Lte =>
    case Within =>
    case Contains =>
  }

  /** isReserved: the key names a comparator. */
  predicate IsReserved(key: string)
  {
    ComparatorNamed(key).Some?
  }

  /** An entry under a name that is not reserved is not a comparator group. */
  lemma UnreservedNotGroup(e: Entry)
    requires !IsReserved(e.Key())
    ensures !e.Group?
  {
    if e.Group? {
      NameNamesComparator(e.op);
    }
  }

  /** The comparators whose array values the hash sorts. */
  predicate SortsArrays(op: Comparator)
  {
    op == Within || op == Contains
  }

  /** The failures the builder, the codec and the hash can raise. */
  datatype Error =
    | UnknownOperator(key: string)        // constructor: a configuration key outside the whitelist
    | InvalidWhere                        // where: neither a string nor a plain object
    | NullWhere                           // where: the argument is null (reading its constructor throws)
    | NullSpec(field: string)             // where: a field's spec is null (reading its constructor throws)
    | NotAComparator(field: string, key: string)  // where: a spec key is not a comparator method
    | UnknownProperty(key: string)        // fromJSON: a property it does not recognise
    | UnknownType(name: string)           // fromJSON: `type` names neither find nor findOne
    | NotAnArray(op: Comparator, field: string)   // hash: a within/contains value has no sort method

  /** One (field, value) pair of a comparator group. */
  datatype Cond = Cond(field: string, value: Value)

  /** One property of the descriptor. `Type` holds the name given to `type`;
      `Extra` is any property the builder never writes (such as `where`), under a
      name that has no kind of entry of its own. */
  datatype Entry =
    | From(ns: string)
    | ByKey(key: Value)
    | Sort(spec: seq<string>)
    | Skip(n: int)
    | Limit(n: int)
    | Only(fields: seq<string>)
    | Except(fields: seq<string>)
    | Type(kind: string)
    | Group(op: Comparator, conds: seq<Cond>)
    | Extra(name: ForeignName, value: Value)
  {
    /** The property name of the entry. */
    function Key(): string
    {
      match this
      case From(_) => "from"
      case ByKey(_) => "byKey"
      case Sort(_) => "sort"
      case Skip(_) => "skip"
      case Limit(_) => "limit"
      case Only(_) => "only"
      case Except(_) => "except"
      case Type(_) => "type"
      case Group(op, _) => Name(op)
      case Extra(name, _) => name
    }
  }

  /** Every property name that has its own kind of entry. */
  const KnownKeys: set<string> :=
    {"from", "byKey", "sort", "skip", "limit", "only", "except", "type",
     "equals", "notEquals", "gt", "gte", "lt", "lte", "within", "contains"}

  /** A property name the builder never writes and neither fromJSON nor the hash
      handles by name. */
  type ForeignName = k: string | !Known(k) witness "where"

  /** The name has its own kind of entry. */
  predicate Known(k: string)
  {
    k in KnownKeys
  }

  /** The last position holding key k, or -1. */
  function Find(d: seq<Entry>, k: string): (i: int)
    ensures -1 <= i < |d|
    ensures i >= 0 ==> d[i].Key() == k
    ensures forall j :: i < j < |d| ==> d[j].Key() != k
  {
    if d == [] then -1
    else if d[|d| - 1].Key() == k then |d| - 1
    else
      var i := Find(d[..|d| - 1], k);
      assert forall j :: 0 <= j < |d| - 1 ==> d[..|d| - 1][j] == d[j];
      i
  }

  /** The entry stored under key k. */
  function Get(d: seq<Entry>, k: string): Option<Entry>
  {
    var i := Find(d, k);
    if i < 0 then None else Some(d[i])
  }

  /** Assigns a property: overwrite in place when present, append otherwise. */
  function SetEntry(d: seq<Entry>, e: Entry): seq<Entry>
  {
    var i := Find(d, e.Key());
    if i < 0 then d + [e] else d[i := e]
  }

  /** The last position of field f in a group, or -1. */
  function FindField(cs: seq<Cond>, f: string): (i: int)
    ensures -1 <= i < |cs|
    ensures i >= 0 ==> cs[i].field == f
    ensures forall j :: i < j < |cs| ==> cs[j].field != f
  {
    if cs == [] then -1
    else if cs[|cs| - 1].field == f then |cs| - 1
    else FindField(cs[..|cs| - 1], f)
  }

  /** The value a group holds for field f. */
  function FieldValue(cs: seq<Cond>, f: string): Option<Value>
  {
    var i := FindField(cs, f);
    if i < 0 then None else Some(cs[i].value)
  }

  /** cond[field] = val on a group. */
  function PutCond(cs: seq<Cond>, f: string, v: Value): seq<Cond>
  {
    var i := FindField(cs, f);
    if i < 0 then cs + [Cond(f, v)] else cs[i := Cond(f, v)]
  }

  /** The group stored for a comparator. */
  function GroupOf(d: seq<Entry>, op: Comparator): Option<seq<Cond>>
  {
    match Get(d, Name(op))
    case Some(Group(_, cs)) => Some(cs)
    case _ => None
  }

  /** The value stored for (comparator, field). */
  function CondAt(d: seq<Entry>, op: Comparator, f: string): Option<Value>
  {
    match GroupOf(d, op)
    case Some(cs) => FieldValue(cs, f)
    case None => None
  }

  /** `json[op] || (json[op] = {})` followed by `cond[f] = v`. A property under the
      comparator's name that is not a group does not receive the value. */
  function AddCondition(d: seq<Entry>, op: Comparator, f: string, v: Value): seq<Entry>
  {
    var i := Find(d, Name(op));
    if i < 0 then d + [Group(op, [Cond(f, v)])]
    else match d[i]
      case Group(_, cs) => d[i := Group(op, PutCond(cs, f, v))]
      case _ => d
  }

  ghost predicate UniqueKeys(d: seq<Entry>)
  {
    forall i, j :: 0 <= i < j < |d| ==> d[i].Key() != d[j].Key()
  }

  ghost predicate UniqueFields(cs: seq<Cond>)
  {
    forall i, j :: 0 <= i < j < |cs| ==> cs[i].field != cs[j].field
  }

  /** A descriptor that is a JavaScript object: property names are unique, and every
      group is itself an object. */
  ghost predicate WellFormed(d: seq<Entry>)
  {
    && UniqueKeys(d)
    && (forall i :: 0 <= i < |d| && d[i].Group? ==> UniqueFields(d[i].conds))
  }

  /** What the builder's own operations can produce: no foreign properties, no empty
      group, and `type` only ever 'find' or 'findOne'. */
  ghost predicate BuilderMade(d: seq<Entry>)
  {
    && WellFormed(d)
    && forall i :: 0 <= i < |d| ==>
         && !d[i].Extra?
         && (d[i].Group? ==> d[i].conds != [])
         && (d[i].Type? ==> d[i].kind in {"find", "findOne"})
  }

  /** Assigning a property makes it read back, and no other property changes. */
  lemma SetEntryLookup(d: seq<Entry>, e: Entry, k: string)
    ensures Get(SetEntry(d, e), k) == if k == e.Key() then Some(e) else Get(d, k)
  {
    var i := Find(d, e.Key());
    var r := SetEntry(d, e);
    if i < 0 {
      assert r[|d|] == e;
      if k != e.Key() {
        FindAppend(d, e, k);
      }
    } else {
      FindUpdate(d, i, e, k);
    }
  }

  lemma {:induction false} FindAppend(d: seq<Entry>, e: Entry, k: string)
    requires k != e.Key()
    ensures Find(d + [e], k) == Find(d, k)
  {
    assert (d + [e])[..|d|] == d;
  }

  lemma {:induction false} FindUpdate(d: seq<Entry>, i: nat, e: Entry, k: string)
    requires i < |d| && d[i].Key() == e.Key()
    ensures Find(d[i := e], k) == Find(d, k)
    decreases |d|
  {
    if i < |d| - 1 && d[|d| - 1].Key() != k {
      assert d[i := e][..|d| - 1] == d[..|d| - 1][i := e];
      FindUpdate(d[..|d| - 1], i, e, k);
    }
  }

  /** Overwriting keeps a property's position; a new property goes last. */
  lemma SetEntryShape(d: seq<Entry>, e: Entry)
    ensures Get(d, e.Key()).None? ==> SetEntry(d, e) == d + [e]
    ensures Get(d, e.Key()).Some? ==>
      |SetEntry(d, e)| == |d| &&
      forall j :: 0 <= j < |d| && d[j].Key() != e.Key() ==> SetEntry(d, e)[j] == d[j]
  {
  }

  lemma SetEntryWellFormed(d: seq<Entry>, e: Entry)
    requires WellFormed(d)
    requires e.Group? ==> UniqueFields(e.conds)
    ensures WellFormed(SetEntry(d, e))
    ensures (BuilderMade(d) && !e.Extra? && (e.Group? ==> e.conds != [])
             && (e.Type? ==> e.kind in {"find", "findOne"})) ==> BuilderMade(SetEntry(d, e))
  {
  }

  /** A group keeps unique fields when a field is assigned, and the assigned field
      reads back while every other field keeps its value. */
  lemma PutCondLookup(cs: seq<Cond>, f: string, v: Value, g: string)
    ensures FieldValue(PutCond(cs, f, v), g) == if g == f then Some(v) else FieldValue(cs, g)
    ensures UniqueFields(cs) ==> UniqueFields(PutCond(cs, f, v))
    ensures PutCond(cs, f, v) != []
  {
    var i := FindField(cs, f);
    if i < 0 {
      if g != f {
        assert (cs + [Cond(f, v)])[..|cs|] == cs;
      }
    } else if g == f {
      var t := cs[i := Cond(f, v)];
      assert PutCond(cs, f, v) == t;
      var k := FindField(t, f);
      assert k >= i by { assert t[i].field == f; }
      assert forall j :: i < j < |t| ==> t[j] == cs[j];
    } else {
      var t := cs[i := Cond(f, v)];
      assert PutCond(cs, f, v) == t;
      FindFieldUpdate(cs, i, Cond(f, v), g);
      var j := FindField(cs, g);
      assert FindField(t, g) == j;
      if j >= 0 {
        assert j != i;
        assert t[j] == cs[j];
      }
    }
  }

  lemma {:induction false} FindFieldUpdate(cs: seq<Cond>, i: nat, c: Cond, g: string)
    requires i < |cs| && cs[i].field == c.field
    ensures FindField(cs[i := c], g) == FindField(cs, g)
    decreases |cs|
  {
    if i < |cs| - 1 && cs[|cs| - 1].field != g {
      assert cs[i := c][..|cs| - 1] == cs[..|cs| - 1][i := c];
      FindFieldUpdate(cs[..|cs| - 1], i, c, g);
    }
  }

  /** The group a comparator call leaves behind. */
  function GroupAfter(d: seq<Entry>, op: Comparator, f: string, v: Value): seq<Cond>
  {
    match GroupOf(d, op)
    case None => [Cond(f, v)]
    case Some(cs) => PutCond(cs, f, v)
  }

  /** In a well-formed descriptor, the property named after a comparator is that
      comparator's group. */
  lemma GroupUnderName(d: seq<Entry>, op: Comparator)
    requires WellFormed(d)
    ensures Find(d, Name(op)) >= 0 ==>
      d[Find(d, Name(op))].Group? && d[Find(d, Name(op))].op == op
  {
    var i := Find(d, Name(op));
    if i >= 0 {
      NameNamesComparator(op);
      if d[i].Extra? {
        NameKnown(op);
      } else if d[i].Group? {
        NameNamesComparator(d[i].op);
      }
    }
  }

  lemma NameKnown(op: Comparator)
    ensures Name(op) in KnownKeys
  {
    match op
    case Equals =>
    case NotEquals =>
    case Gt =>
    case Gte =>
    case Lt =>
    case Lte =>
    case Within =>
    case Contains =>
  }

  lemma AddConditionIsAssignment(d: seq<Entry>, op: Comparator, f: string, v: Value)
    requires WellFormed(d)
    ensures AddCondition(d, op, f, v) == SetEntry(d, Group(op, GroupAfter(d, op, f, v)))
  {
    assert Group(op, GroupAfter(d, op, f, v)).Key() == Name(op);
    GroupUnderName(d, op);
  }

  /** A comparator call stores v under (op, f); every other (comparator, field)
      pair keeps its value. */
  lemma AddConditionCondAt(d: seq<Entry>, op: Comparator, f: string, v: Value)
    requires WellFormed(d)
    ensures forall op', g ::
              CondAt(AddCondition(d, op, f, v), op', g) ==
              (if op' == op && g == f then Some(v) else CondAt(d, op', g))
  {
    forall op', g ensures CondAt(AddCondition(d, op, f, v), op', g) ==
      (if op' == op && g == f then Some(v) else CondAt(d, op', g))
    {
      AddConditionCondAtOne(d, op, f, v, op', g);
    }
  }

  lemma AddConditionCondAtOne(d: seq<Entry>, op: Comparator, f: string, v: Value, op': Comparator, g: string)
    requires WellFormed(d)
    ensures CondAt(AddCondition(d, op, f, v), op', g) ==
            (if op' == op && g == f then Some(v) else CondAt(d, op', g))
  {
    AddConditionGroupOf(d, op, f, v, op');
    if op' == op {
      match GroupOf(d, op)
      case Some(cs) => PutCondLookup(cs, f, v, g);
      case None =>
    }
  }

  /** A comparator call changes only its own comparator's group. */
  lemma AddConditionGroupOf(d: seq<Entry>, op: Comparator, f: string, v: Value, op': Comparator)
    requires WellFormed(d)
    ensures GroupOf(AddCondition(d, op, f, v), op') ==
            if op' == op then Some(GroupAfter(d, op, f, v)) else GroupOf(d, op')
  {
    var a, g := AddCondition(d, op, f, v), Group(op, GroupAfter(d, op, f, v));
    assert g.Key() == Name(op);
    AddConditionIsAssignment(d, op, f, v);
    SetEntryLookup(d, g, Name(op'));
    NameInjective(op, op');
    if op' == op {
      GroupOfIs(a, op, GroupAfter(d, op, f, v));
    } else {
      GroupOfByGet(a, d, op');
    }
  }

  lemma GroupOfIs(d: seq<Entry>, op: Comparator, cs: seq<Cond>)
    requires Get(d, Name(op)) == Some(Group(op, cs))
    ensures GroupOf(d, op) == Some(cs)
  {
  }

  lemma GroupOfByGet(d: seq<Entry>, d': seq<Entry>, op: Comparator)
    requires Get(d, Name(op)) == Get(d', Name(op))
    ensures GroupOf(d, op) == GroupOf(d', op)
  {
  }

  /** Different comparators have different names. */
  lemma NameInjective(op: Comparator, op': Comparator)
    ensures Name(op) == Name(op') <==> op == op'
  {
    NameNamesComparator(op);
    NameNamesComparator(op');
  }

  /** A comparator call stores v under (op, f), creating the group when absent;
      every other (comparator, field) pair and every other property is unchanged. */
  lemma AddConditionLookup(d: seq<Entry>, op: Comparator, f: string, v: Value)
    requires WellFormed(d)
    ensures GroupOf(AddCondition(d, op, f, v), op) == Some(GroupAfter(d, op, f, v))
    ensures forall op', g ::
              CondAt(AddCondition(d, op, f, v), op', g) ==
              (if op' == op && g == f then Some(v) else CondAt(d, op', g))
    ensures forall k :: k != Name(op) ==> Get(AddCondition(d, op, f, v), k) == Get(d, k)
    ensures WellFormed(AddCondition(d, op, f, v))
    ensures BuilderMade(d) ==> BuilderMade(AddCondition(d, op, f, v))
  {
    AddConditionCondAt(d, op, f, v);
    AddConditionIsAssignment(d, op, f, v);
    var e := Group(op, GroupAfter(d, op, f, v));
    SetEntryLookupAll(d, e);
    if GroupOf(d, op).Some? {
      GroupUnderName(d, op);
      PutCondLookup(GroupOf(d, op).value, f, v, f);
    }
    SetEntryWellFormed(d, e);
  }

  lemma SetEntryLookupAll(d: seq<Entry>, e: Entry)
    ensures forall k :: Get(SetEntry(d, e), k) == if k == e.Key() then Some(e) else Get(d, k)
  {
    forall k ensures Get(SetEntry(d, e), k) == if k == e.Key() then Some(e) else Get(d, k) {
      SetEntryLookup(d, e, k);
    }
  }
}
