/** fromJSON: rebuild a builder from a flat descriptor by replaying the builder's own
    public operations, property by property in enumeration order. */
module Codec {
  import opened Wrappers
  import opened Values
  import opened Descriptor
  import opened Builder

  /** `q.where(field)[op](value)` for each field of a group, in order. */
  function ReplayConds(s: State, op: Comparator, cs: seq<Cond>): State
    decreases |cs|
  {
    if cs == [] then s
    else ReplayConds(Compare(Select(s, cs[0].field), op, cs[0].value), op, cs[1..])
  }

  /** ReplayConds from position j: the field at j is replayed first. */
  lemma ReplayCondsStep(s: State, op: Comparator, cs: seq<Cond>, j: nat)
    requires j < |cs|
    ensures ReplayConds(s, op, cs[j..]) ==
      ReplayConds(Compare(Select(s, cs[j].field), op, cs[j].value), op, cs[j + 1..])
  {
    assert cs[j..][0] == cs[j] && cs[j..][1..] == cs[j + 1..];
  }

  /** The switch of fromJSON for one property. */
  function ReplayEntry(s: State, e: Entry): Result<State, Error>
  {
    match e
    case Type(name) =>
      if name == "find" || name == "findOne" then Ok(Assign(s, Type(name)))
      else Err(UnknownType(name))
    case Group(op, cs) => Ok(ReplayConds(s, op, cs))
    case Extra(name, _) => Err(UnknownProperty(name))
    case _ => Ok(Assign(s, e))
  }

  /** fromJSON's loop over the properties of its input. */
  function Replay(s: State, wire: seq<Entry>): Result<State, Error>
    decreases |wire|
  {
    if wire == [] then Ok(s)
    else match ReplayEntry(s, wire[0])
      case Err(e) => Err(e)
      case Ok(s1) => Replay(s1, wire[1..])
  }

  /** fromJSON: replay onto a fresh builder. */
  function FromWire(wire: seq<Entry>): Result<State, Error>
  {
    Replay(Empty, wire)
  }

  // ----- Properties -----

  /** The properties fromJSON accepts: everything but unknown names, and a `type`
      of find or findOne. */
  predicate Accepted(e: Entry)
  {
    !e.Extra? && (e.Type? ==> e.kind == "find" || e.kind == "findOne")
  }

  /** fromJSON succeeds exactly when every property of its input is accepted; it
      throws on the first unknown property or unknown `type`. */
  lemma {:induction false} ReplayOkIff(s: State, wire: seq<Entry>)
    ensures Replay(s, wire).Ok? <==> forall i :: 0 <= i < |wire| ==> Accepted(wire[i])
    decreases |wire|
  {
    if wire != [] {
      var r := ReplayEntry(s, wire[0]);
      assert r.Ok? <==> Accepted(wire[0]);
      if r.Ok? {
        ReplayOkIff(r.value, wire[1..]);
        assert forall i :: 0 <= i < |wire[1..]| ==> wire[1..][i] == wire[i + 1];
      }
    }
  }

  /** Replaying fields of a group keeps a builder-made descriptor builder-made. */
  lemma {:induction false} ReplayCondsKeepsBuilderMade(s: State, op: Comparator, cs: seq<Cond>)
    requires BuilderMade(s.json)
    ensures BuilderMade(ReplayConds(s, op, cs).json)
    decreases |cs|
  {
    if cs != [] {
      AddConditionLookup(s.json, op, cs[0].field, cs[0].value);
      ReplayCondsKeepsBuilderMade(Compare(Select(s, cs[0].field), op, cs[0].value), op, cs[1..]);
    }
  }

  /** Whatever fromJSON accepts yields a descriptor the builder itself could have
      produced, so its toJSON can be fed back to fromJSON. */
  lemma {:induction false} ReplayKeepsBuilderMade(s: State, wire: seq<Entry>)
    requires BuilderMade(s.json)
    requires Replay(s, wire).Ok?
    ensures BuilderMade(Replay(s, wire).value.json)
    decreases |wire|
  {
    if wire != [] {
      var e := wire[0];
      if e.Group? {
        ReplayCondsKeepsBuilderMade(s, e.op, e.conds);
      } else {
        SetEntryWellFormed(s.json, e);
      }
      ReplayKeepsBuilderMade(ReplayEntry(s, e).value, wire[1..]);
    }
  }

  /** Replaying the remaining fields of a group whose first k fields are already in
      place completes the group, at the same position. */
  lemma {:induction false} ReplayCondsExtends(p: seq<Entry>, c: Option<string>, op: Comparator, cs: seq<Cond>, k: nat)
    requires 1 <= k <= |cs|
    requires UniqueFields(cs)
    requires forall j :: 0 <= j < |p| ==> p[j].Key() != Name(op)
    ensures ReplayConds(State(p + [Group(op, cs[..k])], c), op, cs[k..]).json == p + [Group(op, cs)]
    decreases |cs| - k
  {
    if k == |cs| {
      assert cs[..k] == cs && cs[k..] == [];
    } else {
      var s := State(p + [Group(op, cs[..k])], c);
      var f, v := cs[k].field, cs[k].value;
      ReplayCondsStep(s, op, cs, k);
      ExtendGroup(p, op, cs, k);
      CompareAfterSelect(s, f, op, v);
      ReplayCondsExtends(p, Some(f), op, cs, k + 1);
    }
  }

  /** The next field of a group whose first k fields are in place, as the last
      property, is appended to that group. */
  lemma ExtendGroup(p: seq<Entry>, op: Comparator, cs: seq<Cond>, k: nat)
    requires 1 <= k < |cs|
    requires UniqueFields(cs)
    requires forall j :: 0 <= j < |p| ==> p[j].Key() != Name(op)
    ensures AddCondition(p + [Group(op, cs[..k])], op, cs[k].field, cs[k].value) == p + [Group(op, cs[..k + 1])]
  {
    var d := p + [Group(op, cs[..k])];
    var f, v := cs[k].field, cs[k].value;
    assert Group(op, cs[..k]).Key() == Name(op);
    assert Find(d, Name(op)) == |p|;
    assert FindField(cs[..k], f) < 0;
    assert PutCond(cs[..k], f, v) == cs[..k + 1];
  }

  /** Replaying a non-empty group with distinct fields appends exactly that group. */
  lemma ReplayCondsAppends(s: State, op: Comparator, cs: seq<Cond>)
    requires cs != [] && UniqueFields(cs)
    requires forall j :: 0 <= j < |s.json| ==> s.json[j].Key() != Name(op)
    ensures ReplayConds(s, op, cs).json == s.json + [Group(op, cs)]
  {
    var f, v := cs[0].field, cs[0].value;
    assert Find(s.json, Name(op)) < 0;
    assert cs[..1] == [Cond(f, v)];
    assert AddCondition(s.json, op, f, v) == s.json + [Group(op, cs[..1])];
    ReplayCondsExtends(s.json, Some(f), op, cs, 1);
  }

  /** Replaying the rest of a descriptor the builder could have produced, after its
      prefix p, rebuilds the whole descriptor. */
  lemma {:induction false} ReplayRebuilds(p: seq<Entry>, c: Option<string>, rest: seq<Entry>)
    requires BuilderMade(p + rest)
    ensures Replay(State(p, c), rest).Ok?
    ensures Replay(State(p, c), rest).value.json == p + rest
    decreases |rest|
  {
    if rest != [] {
      var d := p + rest;
      var e := rest[0];
      assert e == d[|p|];
      assert forall j :: 0 <= j < |p| ==> p[j].Key() != e.Key() by {
        forall j | 0 <= j < |p| ensures p[j].Key() != e.Key() { assert p[j] == d[j]; }
      }
      ReplayEntryAppends(p, c, e);
      assert (p + [e]) + rest[1..] == d;
      ReplayRebuilds(p + [e], ReplayEntry(State(p, c), e).value.cursor, rest[1..]);
    }
  }

  /** A property the builder could have written, under a name not yet present, is
      replayed by appending it. */
  lemma ReplayEntryAppends(p: seq<Entry>, c: Option<string>, e: Entry)
    requires !e.Extra? && (e.Type? ==> e.kind in {"find", "findOne"})
    requires e.Group? ==> e.conds != [] && UniqueFields(e.conds)
    requires forall j :: 0 <= j < |p| ==> p[j].Key() != e.Key()
    ensures ReplayEntry(State(p, c), e).Ok?
    ensures ReplayEntry(State(p, c), e).value.json == p + [e]
  {
    if e.Group? {
      assert e.Key() == Name(e.op);
      ReplayCondsAppends(State(p, c), e.op, e.conds);
    } else {
      assert Find(p, e.Key()) < 0;
    }
  }

  /** Round trip: fromJSON of a descriptor the builder produced yields a builder whose
      descriptor is that same descriptor: the same properties in the same order, and
      the same (comparator, field) -> value contents. */
  lemma RoundTrip(d: seq<Entry>)
    requires BuilderMade(d)
    ensures FromWire(d).Ok?
    ensures FromWire(d).value.json == d
  {
    ReplayRebuilds([], None, d);
  }

  /** Decoding is idempotent: re-encoding what fromJSON built and decoding it again
      gives the same descriptor. */
  lemma DecodeTwice(wire: seq<Entry>)
    requires FromWire(wire).Ok?
    ensures FromWire(FromWire(wire).value.json).Ok?
    ensures FromWire(FromWire(wire).value.json).value.json == FromWire(wire).value.json
  {
    ReplayKeepsBuilderMade(Empty, wire);
    RoundTrip(FromWire(wire).value.json);
  }
}
