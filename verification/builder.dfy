/** What each builder operation does to the builder's state, as functions of the
    state before it: the descriptor and the field cursor. The class in module Queries
    is proved to perform exactly these transitions. */
module Builder {
  import opened Wrappers
  import opened Values
  import opened Descriptor

  /** The builder's two fields: `_json` and `_currField` (None until a field is named). */
  datatype State = State(json: seq<Entry>, cursor: Option<string>)

  datatype Outcome = Done | Failed(error: Error)

  /** The state an operation leaves behind and whether it threw. A throw does not
      undo the changes made before it. */
  datatype Run = Run(state: State, outcome: Outcome)

  const Empty := State([], None)

  /** The property name a comparator writes under: an unset cursor reads as "undefined". */
  function CursorField(cursor: Option<string>): string
  {
    match cursor
    case None => "undefined"
    case Some(f) => f
  }

  /** A comparator method: store v under the cursor field in op's group. */
  function Compare(s: State, op: Comparator, v: Value): State
  {
    s.(json := AddCondition(s.json, op, CursorField(s.cursor), v))
  }

  /** A setter (from, byKey, sort, skip, limit, only, except, find, findOne). */
  function Assign(s: State, e: Entry): State
  {
    s.(json := SetEntry(s.json, e))
  }

  /** `q.where(f)[op](v)`: v is stored under f, which the cursor is left on. */
  lemma CompareAfterSelect(s: State, f: string, op: Comparator, v: Value)
    ensures Compare(Select(s, f), op, v) == State(AddCondition(s.json, op, f, v), Some(f))
  {
  }

  /** where(name): move the cursor. */
  function Select(s: State, f: string): State
  {
    s.(cursor := Some(f))
  }

  /** keyMatch(spec, isReserved): some key of the spec names a comparator. */
  predicate AnyReserved(ms: seq<Member>)
  {
    exists i :: 0 <= i < |ms| && IsReserved(ms[i].name)
  }

  /** The inner loop of where: every key of a spec is dispatched as a comparator;
      the first key that is not one throws. */
  function ApplyComparators(s: State, field: string, ms: seq<Member>): Run
    decreases |ms|
  {
    if ms == [] then Run(s, Done)
    else match ComparatorNamed(ms[0].name)
      case None => Run(s, Failed(NotAComparator(field, ms[0].name)))
      case Some(op) => ApplyComparators(Compare(s, op, ms[0].value), field, ms[1..])
  }

  /** One field of where's object form: the cursor moves to the field, then its spec
      is either a set of comparators or a value compared with `equals`. */
  function WhereField(s: State, m: Member): Run
  {
    var s1 := Select(s, m.name);
    match m.value
    case JNull => Run(s1, Failed(NullSpec(m.name)))
    case JObj(spec) =>
      if AnyReserved(spec) then ApplyComparators(s1, m.name, spec)
      else Run(Compare(s1, Equals, m.value), Done)
    case _ => Run(Compare(s1, Equals, m.value), Done)
  }

  /** where's object form, field by field, stopping at the first throw. */
  function WhereFields(s: State, ms: seq<Member>): Run
    decreases |ms|
  {
    if ms == [] then Run(s, Done)
    else
      var r := WhereField(s, ms[0]);
      if r.outcome.Failed? then r else WhereFields(r.state, ms[1..])
  }

  /** where(arg). */
  function Where(s: State, arg: Value): Run
  {
    match arg
    case JStr(f) => Run(Select(s, f), Done)
    case JObj(ms) => WhereFields(s, ms)
    case JNull => Run(s, Failed(NullWhere))
    case _ => Run(s, Failed(InvalidWhere))
  }

  /** One property of the constructor's configuration object. */
  datatype Param =
    | PFrom(ns: string)
    | PByKey(key: Value)
    | PWhere(arg: Value)
    | PSkip(n: int)
    | PLimit(n: int)
    | PSort(spec: seq<string>)
    | PExcept(fields: seq<string>)
    | POnly(fields: seq<string>)
    | PUnknown(name: UnknownParamName, value: Value)

  /** The constructor's whitelist of configuration keys. */
  const ParamKeys: set<string> :=
    {"from", "byKey", "where", "skip", "limit", "sort", "except", "only"}

  /** A configuration key outside the whitelist; a whitelisted key always arrives as
      its own kind of parameter. */
  type UnknownParamName = k: string | k !in ParamKeys witness "type"

  /** The constructor applies one configuration property. */
  function Configure1(s: State, p: Param): Run
  {
    match p
    case PFrom(ns) => Run(Assign(s, From(ns)), Done)
    case PByKey(k) => Run(Assign(s, ByKey(k)), Done)
    case PWhere(arg) => Where(s, arg)
    case PSkip(n) => Run(Assign(s, Skip(n)), Done)
    case PLimit(n) => Run(Assign(s, Limit(n)), Done)
    case PSort(spec) => Run(Assign(s, Sort(spec)), Done)
    case PExcept(fs) => Run(Assign(s, Except(fs)), Done)
    case POnly(fs) => Run(Assign(s, Only(fs)), Done)
    case PUnknown(name, _) => Run(s, Failed(UnknownOperator(name)))
  }

  /** The constructor's loop over its configuration, in enumeration order. */
  function Configure(s: State, ps: seq<Param>): Run
    decreases |ps|
  {
    if ps == [] then Run(s, Done)
    else
      var r := Configure1(s, ps[0]);
      if r.outcome.Failed? then r else Configure(r.state, ps[1..])
  }

  /** WhereFields from position i: the field at i is walked first. */
  lemma WhereFieldsStep(s: State, ms: seq<Member>, i: nat)
    requires i < |ms|
    ensures WhereFields(s, ms[i..]) ==
      var r := WhereField(s, ms[i]);
      if r.outcome.Failed? then r else WhereFields(r.state, ms[i + 1..])
  {
    assert ms[i..][0] == ms[i] && ms[i..][1..] == ms[i + 1..];
  }

  /** Configure from position i: the property at i is applied first. */
  lemma ConfigureStep(s: State, ps: seq<Param>, i: nat)
    requires i < |ps|
    ensures Configure(s, ps[i..]) ==
      var r := Configure1(s, ps[i]);
      if r.outcome.Failed? then r else Configure(r.state, ps[i + 1..])
  {
    assert ps[i..][0] == ps[i] && ps[i..][1..] == ps[i + 1..];
  }

  // ----- Properties -----

  /** The comparator loop never moves the cursor. */
  lemma {:induction false} ApplyComparatorsKeepsCursor(s: State, field: string, ms: seq<Member>)
    ensures ApplyComparators(s, field, ms).state.cursor == s.cursor
    decreases |ms|
  {
    if ms != [] && ComparatorNamed(ms[0].name).Some? {
      ApplyComparatorsKeepsCursor(Compare(s, ComparatorNamed(ms[0].name).value, ms[0].value), field, ms[1..]);
    }
  }

  /** where's object form leaves the cursor on the last field it reached: the last
      field when it completes, the field whose spec threw otherwise. */
  lemma {:induction false} WhereFieldsCursor(s: State, ms: seq<Member>)
    ensures var r := WhereFields(s, ms);
      && (r.outcome.Done? && ms != [] ==> r.state.cursor == Some(ms[|ms| - 1].name))
      && (r.outcome.Done? && ms == [] ==> r.state == s)
      && (r.outcome.Failed? ==> exists i :: 0 <= i < |ms| && r.state.cursor == Some(ms[i].name))
    decreases |ms|
  {
    if ms != [] {
      var r0 := WhereField(s, ms[0]);
      WhereFieldCursor(s, ms[0]);
      if r0.outcome.Done? {
        WhereFieldsCursor(r0.state, ms[1..]);
        var r := WhereFields(r0.state, ms[1..]);
        assert WhereFields(s, ms) == r;
        if r.outcome.Failed? {
          var i :| 0 <= i < |ms[1..]| && r.state.cursor == Some(ms[1..][i].name);
          assert ms[1..][i] == ms[i + 1];
        } else if |ms| > 1 {
          assert ms[1..][|ms| - 2] == ms[|ms| - 1];
        }
      } else {
        assert WhereFields(s, ms) == r0 && r0.state.cursor == Some(ms[0].name);
      }
    }
  }

  /** One field of where's object form leaves the cursor on that field. */
  lemma WhereFieldCursor(s: State, m: Member)
    ensures WhereField(s, m).state.cursor == Some(m.name)
  {
    if m.value.JObj? && AnyReserved(m.value.members) {
      ApplyComparatorsKeepsCursor(Select(s, m.name), m.name, m.value.members);
    }
  }

  /** The value the last member named g carries. */
  function MemberValue(ms: seq<Member>, g: string): Option<Value>
    decreases |ms|
  {
    if ms == [] then None
    else
      var later := MemberValue(ms[1..], g);
      if later.Some? then later else if ms[0].name == g then Some(ms[0].value) else None
  }

  /** A spec that where compares with `equals`: anything but null and plain objects. */
  predicate PlainSpec(v: Value)
  {
    !v.JNull? && !v.JObj?
  }

  /** where(object) with plain specs stores each field's spec in the `equals` group and
      touches no other group and no other property. */
  lemma {:induction false} WherePlainSpecsStoreEquals(s: State, ms: seq<Member>)
    requires WellFormed(s.json)
    requires forall i :: 0 <= i < |ms| ==> PlainSpec(ms[i].value)
    ensures var r := WhereFields(s, ms);
      && r.outcome.Done?
      && WellFormed(r.state.json)
      && (forall g :: CondAt(r.state.json, Equals, g) ==
            if MemberValue(ms, g).Some? then MemberValue(ms, g) else CondAt(s.json, Equals, g))
      && (forall op, g :: op != Equals ==> CondAt(r.state.json, op, g) == CondAt(s.json, op, g))
      && (forall k :: k != Name(Equals) ==> Get(r.state.json, k) == Get(s.json, k))
    decreases |ms|
  {
    if ms != [] {
      var s1 := Compare(Select(s, ms[0].name), Equals, ms[0].value);
      assert WhereField(s, ms[0]) == Run(s1, Done) by {
        assert PlainSpec(ms[0].value);
      }
      AddConditionLookup(s.json, Equals, ms[0].name, ms[0].value);
      forall i | 0 <= i < |ms[1..]| ensures PlainSpec(ms[1..][i].value) {
        assert ms[1..][i] == ms[i + 1];
      }
      WherePlainSpecsStoreEquals(s1, ms[1..]);
    }
  }

  /** A spec whose keys all name comparators is applied in full: for the cursor field,
      each comparator's cell holds the last value the spec gives that comparator (or
      its old value when the spec does not name it); every other cell, the cursor and
      every property that is not a comparator group are unchanged. */
  lemma {:induction false} ApplyComparatorsStores(s: State, field: string, ms: seq<Member>)
    requires WellFormed(s.json)
    requires forall i :: 0 <= i < |ms| ==> IsReserved(ms[i].name)
    ensures var r := ApplyComparators(s, field, ms);
      && r.outcome.Done?
      && r.state.cursor == s.cursor
      && WellFormed(r.state.json)
      && (forall op, g :: CondAt(r.state.json, op, g) ==
            if g == CursorField(s.cursor) && MemberValue(ms, Name(op)).Some? then MemberValue(ms, Name(op))
            else CondAt(s.json, op, g))
      && (forall k :: !IsReserved(k) ==> Get(r.state.json, k) == Get(s.json, k))
    decreases |ms|
  {
    if ms != [] {
      var op0 := ComparatorNamed(ms[0].name).value;
      var s1 := Compare(s, op0, ms[0].value);
      assert ApplyComparators(s, field, ms) == ApplyComparators(s1, field, ms[1..]);
      AddConditionLookup(s.json, op0, CursorField(s.cursor), ms[0].value);
      forall i | 0 <= i < |ms[1..]| ensures IsReserved(ms[1..][i].name) {
        assert ms[1..][i] == ms[i + 1];
      }
      ApplyComparatorsStores(s1, field, ms[1..]);
      forall op ensures (Name(op) == ms[0].name) == (op == op0) {
        NameInjective(op, op0);
      }
      NameNamesComparator(op0);
    }
  }

  /** One field of where's object form whose spec names comparators only: the cursor
      moves to the field and each named comparator's cell for it holds the spec's last
      value for that comparator; nothing else changes. */
  lemma WhereFieldStoresComparators(s: State, m: Member)
    requires WellFormed(s.json)
    requires m.value.JObj? && m.value.members != []
    requires forall i :: 0 <= i < |m.value.members| ==> IsReserved(m.value.members[i].name)
    ensures var r := WhereField(s, m);
      && r.outcome.Done?
      && r.state.cursor == Some(m.name)
      && (forall op, g :: CondAt(r.state.json, op, g) ==
            if g == m.name && MemberValue(m.value.members, Name(op)).Some? then MemberValue(m.value.members, Name(op))
            else CondAt(s.json, op, g))
      && (forall k :: !IsReserved(k) ==> Get(r.state.json, k) == Get(s.json, k))
  {
    var spec := m.value.members;
    assert IsReserved(spec[0].name);
    assert AnyReserved(spec);
    ApplyComparatorsStores(Select(s, m.name), m.name, spec);
  }

  /** The `where` of the configuration in the constructor's comment, reduced to one field. */
  const AgeRange: Value := JObj([Member("age", JObj([Member("gt", JInt(21)), Member("lte", JInt(30))]))])

  /** `{from: 'users', where: {age: {gt: 21, lte: 30}}, sort: ['name', 'asc'], skip: 10, limit: 5}` */
  const UsersConfig: seq<Param> :=
    [PFrom("users"), PWhere(AgeRange), PSort(["name", "asc"]), PSkip(10), PLimit(5)]

  /** `.from('users').where('age').gt(21).lte(30).sort(['name', 'asc']).skip(10).limit(5)` */
  const UsersChain: State :=
    Assign(Assign(Assign(
      Compare(Compare(Select(Assign(Empty, From("users")), "age"), Gt, JInt(21)), Lte, JInt(30)),
      Sort(["name", "asc"])), Skip(10)), Limit(5))

  /** where({f: {n1: v1, n2: v2}}) with two comparator names is where(f)[n1](v1)[n2](v2). */
  lemma WhereTwoComparators(s: State, f: string, n1: string, v1: Value, n2: string, v2: Value,
                            op1: Comparator, op2: Comparator)
    requires ComparatorNamed(n1) == Some(op1) && ComparatorNamed(n2) == Some(op2)
    ensures Where(s, JObj([Member(f, JObj([Member(n1, v1), Member(n2, v2)]))])) ==
            Run(Compare(Compare(Select(s, f), op1, v1), op2, v2), Done)
  {
    var spec := [Member(n1, v1), Member(n2, v2)];
    var s1 := Select(s, f);
    var s2 := Compare(s1, op1, v1);
    var r := Run(Compare(s2, op2, v2), Done);
    assert ApplyComparators(s2, f, [Member(n2, v2)]) == r by {
      assert [Member(n2, v2)][1..] == [];
    }
    assert spec[1..] == [Member(n2, v2)];
    assert ApplyComparators(s1, f, spec) == r;
    assert IsReserved(spec[0].name);
    var m := Member(f, JObj(spec));
    assert WhereField(s, m) == r;
    assert WhereFields(s, [m]) == r by {
      assert [m][0] == m && [m][1..] == [];
    }
  }

  /** A configuration that starts with from and where: the two calls, then the rest
      unless where throws. */
  lemma ConfigureFromWhere(s: State, ns: string, w: Value, rest: seq<Param>)
    ensures var r := Where(Assign(s, From(ns)), w);
      Configure(s, [PFrom(ns), PWhere(w)] + rest) ==
      if r.outcome.Failed? then r else Configure(r.state, rest)
  {
    var ps := [PFrom(ns), PWhere(w)] + rest;
    assert ps[0] == PFrom(ns) && ps[1..][0] == PWhere(w) && ps[1..][1..] == rest;
  }

  /** A configuration property the constructor applies without a throw is followed
      by the rest of the configuration. */
  lemma ConfigureDoneFirst(s: State, p: Param, s': State, rest: seq<Param>)
    requires Configure1(s, p) == Run(s', Done)
    ensures Configure(s, [p] + rest) == Configure(s', rest)
  {
    assert ([p] + rest)[0] == p && ([p] + rest)[1..] == rest;
  }

  /** A configuration of skip and limit: the two setter calls. */
  lemma ConfigureSkipLimit(s: State, skip: int, limit: int)
    ensures Configure(s, [PSkip(skip), PLimit(limit)]) ==
            Run(Assign(Assign(s, Skip(skip)), Limit(limit)), Done)
  {
    var last := [PLimit(limit)];
    assert [PSkip(skip), PLimit(limit)] == [PSkip(skip)] + last;
    ConfigureDoneFirst(s, PSkip(skip), Assign(s, Skip(skip)), last);
    assert last[1..] == [];
  }

  /** A configuration of sort, skip and limit: the three setter calls. */
  lemma ConfigureSortSkipLimit(s: State, spec: seq<string>, skip: int, limit: int)
    ensures Configure(s, [PSort(spec), PSkip(skip), PLimit(limit)]) ==
            Run(Assign(Assign(Assign(s, Sort(spec)), Skip(skip)), Limit(limit)), Done)
  {
    var two := [PSkip(skip), PLimit(limit)];
    assert [PSort(spec), PSkip(skip), PLimit(limit)] == [PSort(spec)] + two;
    ConfigureDoneFirst(s, PSort(spec), Assign(s, Sort(spec)), two);
    ConfigureSkipLimit(Assign(s, Sort(spec)), skip, limit);
  }

  /** The constructor applies a configuration of from, where, sort, skip and limit
      as those five calls in that order. */
  lemma ConfigureFive(s: State, ns: string, w: Value, spec: seq<string>, skip: int, limit: int)
    ensures var r := Where(Assign(s, From(ns)), w);
      Configure(s, [PFrom(ns), PWhere(w), PSort(spec), PSkip(skip), PLimit(limit)]) ==
      if r.outcome.Failed? then r
      else Run(Assign(Assign(Assign(r.state, Sort(spec)), Skip(skip)), Limit(limit)), Done)
  {
    var tail := [PSort(spec), PSkip(skip), PLimit(limit)];
    assert [PFrom(ns), PWhere(w), PSort(spec), PSkip(skip), PLimit(limit)] == [PFrom(ns), PWhere(w)] + tail;
    ConfigureFromWhere(s, ns, w, tail);
    ConfigureSortSkipLimit(Where(Assign(s, From(ns)), w).state, spec, skip, limit);
  }

  /** Configuring a builder through the constructor gives the same builder as the
      corresponding chain of method calls. */
  lemma ConstructorIsChain()
    ensures Configure(Empty, UsersConfig) == Run(UsersChain, Done)
  {
    NameNamesComparator(Gt);
    NameNamesComparator(Lte);
    WhereTwoComparators(Assign(Empty, From("users")), "age", "gt", JInt(21), "lte", JInt(30), Gt, Lte);
    ConfigureFive(Empty, "users", AgeRange, ["name", "asc"], 10, 5);
  }

  /** The constructor throws whenever its configuration has a property outside the
      whitelist (or an earlier `where` throws first). */
  lemma {:induction false} ConfigureRejectsUnknown(s: State, ps: seq<Param>)
    requires exists i :: 0 <= i < |ps| && ps[i].PUnknown?
    ensures Configure(s, ps).outcome.Failed?
    decreases |ps|
  {
    var i :| 0 <= i < |ps| && ps[i].PUnknown?;
    if i > 0 {
      var r := Configure1(s, ps[0]);
      if r.outcome.Done? {
        assert ps[1..][i - 1] == ps[i];
        ConfigureRejectsUnknown(r.state, ps[1..]);
      }
    }
  }

  /** The constructor's `UnknownOperator` always names a key outside the whitelist:
      whatever the configuration, a whitelisted key never draws that throw. */
  lemma {:induction false} ConfigureUnknownOutsideWhitelist(s: State, ps: seq<Param>)
    ensures Configure(s, ps).outcome.Failed? && Configure(s, ps).outcome.error.UnknownOperator? ==>
              Configure(s, ps).outcome.error.key !in ParamKeys
    decreases |ps|
  {
    if ps != [] {
      var r := Configure1(s, ps[0]);
      if ps[0].PWhere? {
        WhereNeverUnknownOperator(s, ps[0].arg);
      }
      if r.outcome.Done? {
        ConfigureUnknownOutsideWhitelist(r.state, ps[1..]);
      }
    }
  }

  /** where throws only its own errors, never the constructor's. */
  lemma WhereNeverUnknownOperator(s: State, arg: Value)
    ensures !(Where(s, arg).outcome.Failed? && Where(s, arg).outcome.error.UnknownOperator?)
  {
    if arg.JObj? {
      WhereFieldsNeverUnknownOperator(s, arg.members);
    }
  }

  lemma {:induction false} WhereFieldsNeverUnknownOperator(s: State, ms: seq<Member>)
    ensures !(WhereFields(s, ms).outcome.Failed? && WhereFields(s, ms).outcome.error.UnknownOperator?)
    decreases |ms|
  {
    if ms != [] {
      var r := WhereField(s, ms[0]);
      var s1 := Select(s, ms[0].name);
      if ms[0].value.JObj? && AnyReserved(ms[0].value.members) {
        ApplyComparatorsNeverUnknownOperator(s1, ms[0].name, ms[0].value.members);
      }
      if r.outcome.Done? {
        WhereFieldsNeverUnknownOperator(r.state, ms[1..]);
      }
    }
  }

  lemma {:induction false} ApplyComparatorsNeverUnknownOperator(s: State, field: string, ms: seq<Member>)
    ensures !(ApplyComparators(s, field, ms).outcome.Failed? &&
              ApplyComparators(s, field, ms).outcome.error.UnknownOperator?)
    decreases |ms|
  {
    if ms != [] && ComparatorNamed(ms[0].name).Some? {
      ApplyComparatorsNeverUnknownOperator(Compare(s, ComparatorNamed(ms[0].name).value, ms[0].value), field, ms[1..]);
    }
  }

  /** Only a key outside the whitelist makes the constructor throw `UnknownOperator`;
      when no `where` precedes the first such key, the throw names that key. */
  lemma {:induction false} ConfigureUnknownNamesKey(s: State, ps: seq<Param>, i: nat)
    requires i < |ps| && ps[i].PUnknown?
    requires forall j :: 0 <= j < i ==> !ps[j].PUnknown? && !ps[j].PWhere?
    ensures Configure(s, ps).outcome == Failed(UnknownOperator(ps[i].name))
    ensures ps[i].name !in ParamKeys
    decreases |ps|
  {
    if i > 0 {
      var r := Configure1(s, ps[0]);
      assert r.outcome.Done?;
      forall j | 0 <= j < i - 1 ensures !ps[1..][j].PUnknown? && !ps[1..][j].PWhere? {
        assert ps[1..][j] == ps[j + 1];
      }
      assert ps[1..][i - 1] == ps[i];
      ConfigureUnknownNamesKey(r.state, ps[1..], i - 1);
    }
  }

  /** A configuration of setters only is applied property by property, like the
      corresponding chain of setter calls: it does not throw, leaves the cursor
      alone, each property it names reads back the value it was given last, and
      every other property is unchanged. */
  lemma {:induction false} ConfigureSettersOnly(s: State, ps: seq<Param>)
    requires forall i :: 0 <= i < |ps| ==> !ps[i].PUnknown? && !ps[i].PWhere?
    ensures Configure(s, ps).outcome.Done?
    ensures Configure(s, ps).state.cursor == s.cursor
    ensures forall i | 0 <= i < |ps| && forall j :: i < j < |ps| ==> SetterEntry(ps[j]).Key() != SetterEntry(ps[i]).Key() ::
              Get(Configure(s, ps).state.json, SetterEntry(ps[i]).Key()) == Some(SetterEntry(ps[i]))
    ensures forall k :: (forall i :: 0 <= i < |ps| ==> SetterEntry(ps[i]).Key() != k) ==>
              Get(Configure(s, ps).state.json, k) == Get(s.json, k)
    decreases |ps|
  {
    if ps != [] {
      var s1 := Assign(s, SetterEntry(ps[0]));
      assert Configure1(s, ps[0]) == Run(s1, Done);
      var rest := ps[1..];
      forall i | 0 <= i < |rest| ensures rest[i] == ps[i + 1] { }
      ConfigureSettersOnly(s1, rest);
      SetEntryLookupAll(s.json, SetterEntry(ps[0]));
      var r := Configure(s, ps).state.json;
      forall k | (forall i :: 0 <= i < |ps| ==> SetterEntry(ps[i]).Key() != k)
        ensures Get(r, k) == Get(s.json, k)
      {
        assert SetterEntry(ps[0]).Key() != k;
        forall i | 0 <= i < |rest| ensures SetterEntry(rest[i]).Key() != k {
          assert SetterEntry(ps[i + 1]).Key() != k;
        }
      }
      forall i | 0 <= i < |ps| &&
          (forall j :: i < j < |ps| ==> SetterEntry(ps[j]).Key() != SetterEntry(ps[i]).Key())
        ensures Get(r, SetterEntry(ps[i]).Key()) == Some(SetterEntry(ps[i]))
      {
        var k := SetterEntry(ps[i]).Key();
        if i == 0 {
          forall j | 0 <= j < |rest| ensures SetterEntry(rest[j]).Key() != k {
            assert SetterEntry(ps[j + 1]).Key() != k;
          }
        } else {
          forall j | i - 1 < j < |rest| ensures SetterEntry(rest[j]).Key() != k {
            assert SetterEntry(ps[j + 1]).Key() != k;
          }
        }
      }
    }
  }

  /** The entry a setter configuration property assigns. */
  function SetterEntry(p: Param): Entry
    requires !p.PUnknown? && !p.PWhere?
  {
    match p
    case PFrom(ns) => From(ns)
    case PByKey(k) => ByKey(k)
    case PSkip(n) => Skip(n)
    case PLimit(n) => Limit(n)
    case PSort(spec) => Sort(spec)
    case PExcept(fs) => Except(fs)
    case POnly(fs) => Only(fs)
  }

  /** Every operation keeps the descriptor something the builder can produce. */
  lemma {:induction false} ApplyComparatorsKeepsBuilderMade(s: State, field: string, ms: seq<Member>)
    requires BuilderMade(s.json)
    ensures BuilderMade(ApplyComparators(s, field, ms).state.json)
    decreases |ms|
  {
    if ms != [] && ComparatorNamed(ms[0].name).Some? {
      var op := ComparatorNamed(ms[0].name).value;
      AddConditionLookup(s.json, op, CursorField(s.cursor), ms[0].value);
      ApplyComparatorsKeepsBuilderMade(Compare(s, op, ms[0].value), field, ms[1..]);
    }
  }

  lemma {:induction false} WhereFieldsKeepsBuilderMade(s: State, ms: seq<Member>)
    requires BuilderMade(s.json)
    ensures BuilderMade(WhereFields(s, ms).state.json)
    decreases |ms|
  {
    if ms != [] {
      var s1 := Select(s, ms[0].name);
      AddConditionLookup(s1.json, Equals, ms[0].name, ms[0].value);
      if ms[0].value.JObj? && AnyReserved(ms[0].value.members) {
        ApplyComparatorsKeepsBuilderMade(s1, ms[0].name, ms[0].value.members);
      }
      var r := WhereField(s, ms[0]);
      if r.outcome.Done? {
        WhereFieldsKeepsBuilderMade(r.state, ms[1..]);
      }
    }
  }

  lemma WhereKeepsBuilderMade(s: State, arg: Value)
    requires BuilderMade(s.json)
    ensures BuilderMade(Where(s, arg).state.json)
  {
    if arg.JObj? { WhereFieldsKeepsBuilderMade(s, arg.members); }
  }

  lemma {:induction false} ConfigureKeepsBuilderMade(s: State, ps: seq<Param>)
    requires BuilderMade(s.json)
    ensures BuilderMade(Configure(s, ps).state.json)
    decreases |ps|
  {
    if ps != [] {
      var p := ps[0];
      if p.PWhere? {
        WhereKeepsBuilderMade(s, p.arg);
      } else if !p.PUnknown? {
        SetEntryWellFormed(s.json, SetterEntry(p));
      }
      var r := Configure1(s, p);
      if r.outcome.Done? {
        ConfigureKeepsBuilderMade(r.state, ps[1..]);
      }
    }
  }
}
