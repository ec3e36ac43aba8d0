/** How normalisation and the hash loop proceed property by property: the facts the
    in-place loops of the QueryBuilder class are proved with. */
module HashSteps {
  import opened Wrappers
  import opened Values
  import opened Descriptor
  import opened Hashing
  import opened HashProperties

  /** The in-place sort of a group's arrays throws at the first value that is not an
      array, having sorted the values before it and left the rest as they were. */
  lemma SortArraysFailsAt(op: Comparator, cs: seq<Cond>, k: nat)
    requires k < |cs|
    requires forall j :: 0 <= j < k ==> cs[j].value.JArr?
    requires !cs[k].value.JArr?
    ensures SortArrays(op, cs).failure == Some(NotAnArray(op, cs[k].field))
    ensures forall j :: 0 <= j < |cs| ==> SortArrays(op, cs).value[j] == if j < k then Canon(cs[j]) else cs[j]
  {
    SortStopsAtFirstNonArray(op, cs, k);
  }

  /** Value k is the first of the group that is not an array. */
  predicate FirstNonArrayAt(cs: seq<Cond>, k: nat)
  {
    k < |cs| && (forall j :: 0 <= j < k ==> cs[j].value.JArr?) && !cs[k].value.JArr?
  }

  /** The sort threw for value k, with the values before it sorted and the rest as
      they were. */
  predicate SortStoppedAt(op: Comparator, cs: seq<Cond>, k: nat)
    requires k < |cs|
  {
    SortArrays(op, cs).failure == Some(NotAnArray(op, cs[k].field)) &&
    forall j :: 0 <= j < |cs| ==> SortArrays(op, cs).value[j] == if j < k then Canon(cs[j]) else cs[j]
  }

  lemma {:induction false} SortStopsAtFirstNonArray(op: Comparator, cs: seq<Cond>, k: nat)
    requires FirstNonArrayAt(cs, k)
    ensures SortStoppedAt(op, cs, k)
    decreases k
  {
    if k > 0 {
      TailArrays(cs, k);
      SortStopsAtFirstNonArray(op, cs[1..], k - 1);
      SortFailedAfterHead(op, cs, k);
    } else {
      assert SortArrays(op, cs).value == cs;
    }
  }

  /** The values before position k of cs are those before k - 1 of its tail. */
  lemma TailArrays(cs: seq<Cond>, k: nat)
    requires 0 < k && FirstNonArrayAt(cs, k)
    ensures cs[0].value.JArr? && FirstNonArrayAt(cs[1..], k - 1)
  {
    forall j | 0 <= j < k - 1 ensures cs[1..][j].value.JArr? {
      assert cs[1..][j] == cs[j + 1];
    }
    assert cs[1..][k - 1] == cs[k];
  }

  /** The inductive step: the tail's sort throws at k - 1, so the whole one throws
      at k. */
  lemma SortFailedAfterHead(op: Comparator, cs: seq<Cond>, k: nat)
    requires 0 < k < |cs| && cs[0].value.JArr?
    requires FirstNonArrayAt(cs, k) && SortStoppedAt(op, cs[1..], k - 1)
    ensures SortStoppedAt(op, cs, k)
  {
    assert cs[1..][k - 1] == cs[k];
    var rest := SortArrays(op, cs[1..]);
    var r := SortArrays(op, cs);
    assert r == Partial([Canon(cs[0])] + rest.value, rest.failure);
    forall j | 0 < j < |cs| ensures r.value[j] == if j < k then Canon(cs[j]) else cs[j] {
      assert cs[1..][j - 1] == cs[j];
      assert r.value[j] == rest.value[j - 1];
    }
  }

  /** Normalisation throws at the first property that throws, having handled the
      properties before it and left the rest as they were. */
  lemma NormalizeFailsAt(d: seq<Entry>, i: nat)
    requires i < |d|
    requires forall j :: 0 <= j < i ==> SortedEntry(d[j]).failure.None?
    requires SortedEntry(d[i]).failure.Some?
    ensures Normalize(d).failure == SortedEntry(d[i]).failure
    ensures forall j :: 0 <= j < |d| ==> Normalize(d).value[j] == if j <= i then SortedEntry(d[j]).value else d[j]
  {
    StopsAtFirstThrow(d, i);
  }

  /** Property i is the first whose handling throws. */
  predicate FirstThrowAt(d: seq<Entry>, i: nat)
  {
    i < |d| && (forall j :: 0 <= j < i ==> SortedEntry(d[j]).failure.None?) && SortedEntry(d[i]).failure.Some?
  }

  /** Normalisation threw what property i throws, with the properties up to i handled
      and the rest as they were. */
  predicate StoppedAt(d: seq<Entry>, i: nat)
    requires i < |d|
  {
    Normalize(d).failure == SortedEntry(d[i]).failure &&
    forall j :: 0 <= j < |d| ==> Normalize(d).value[j] == if j <= i then SortedEntry(d[j]).value else d[j]
  }

  lemma {:induction false} StopsAtFirstThrow(d: seq<Entry>, i: nat)
    requires FirstThrowAt(d, i)
    ensures StoppedAt(d, i)
    decreases i
  {
    if i > 0 {
      TailHandled(d, i);
      StopsAtFirstThrow(d[1..], i - 1);
      FailedAfterHead(d, i);
    } else {
      FailedAtHead(d);
    }
  }

  /** The base case: the first property throws. */
  lemma FailedAtHead(d: seq<Entry>)
    requires FirstThrowAt(d, 0)
    ensures StoppedAt(d, 0)
  {
    NormalizeUnfoldFails(d);
  }

  /** The inductive step: the tail throws at i - 1, so the whole throws at i. */
  lemma FailedAfterHead(d: seq<Entry>, i: nat)
    requires 0 < i < |d| && SortedEntry(d[0]).failure.None?
    requires FirstThrowAt(d, i) && StoppedAt(d[1..], i - 1)
    ensures StoppedAt(d, i)
  {
    assert d[1..][i - 1] == d[i];
    NormalizeUnfoldOk(d);
    ShiftFailed(d, i, Normalize(d[1..]).value);
  }

  /** The properties before position i of d are those before i - 1 of its tail. */
  lemma TailHandled(d: seq<Entry>, i: nat)
    requires 0 < i && FirstThrowAt(d, i)
    ensures SortedEntry(d[0]).failure.None? && FirstThrowAt(d[1..], i - 1)
  {
    forall j | 0 <= j < i - 1 ensures SortedEntry(d[1..][j]).failure.None? {
      assert d[1..][j] == d[j + 1];
    }
    assert d[1..][i - 1] == d[i];
  }

  /** The first property handled, followed by the rest as the recursive call left
      them: handled up to position i, as they were after it. */
  lemma ShiftFailed(d: seq<Entry>, i: nat, rest: seq<Entry>)
    requires i < |d| && |rest| == |d| - 1
    requires forall j :: 0 <= j < |rest| ==>
      rest[j] == if j <= i - 1 then SortedEntry(d[1..][j]).value else d[1..][j]
    ensures forall j :: 0 <= j < |d| ==>
      ([SortedEntry(d[0]).value] + rest)[j] == if j <= i then SortedEntry(d[j]).value else d[j]
  {
    forall j | 0 < j < |d|
      ensures ([SortedEntry(d[0]).value] + rest)[j] == if j <= i then SortedEntry(d[j]).value else d[j]
    {
      assert ([SortedEntry(d[0]).value] + rest)[j] == rest[j - 1];
      assert d[1..][j - 1] == d[j];
    }
  }

  /** Normalisation succeeds when no property throws, handling each in turn. */
  lemma {:induction false} NormalizeAllOk(d: seq<Entry>)
    requires forall j :: 0 <= j < |d| ==> SortedEntry(d[j]).failure.None?
    ensures Normalize(d).failure.None?
    ensures forall j :: 0 <= j < |d| ==> Normalize(d).value[j] == SortedEntry(d[j]).value
    decreases |d|
  {
    if d != [] {
      NormalizeUnfoldOk(d);
      forall j | 0 <= j < |d| - 1 ensures SortedEntry(d[1..][j]).failure.None? {
        assert d[1..][j] == d[j + 1];
      }
      NormalizeAllOk(d[1..]);
      ShiftFailed(d, |d| - 1, Normalize(d[1..]).value);
    }
  }

  /** The in-place sort of a group stopped at value k: what it has left is what
      SortArrays says. */
  lemma SortArraysStops(op: Comparator, cs: seq<Cond>, k: nat, out: seq<Cond>)
    requires k < |cs| == |out| && out[k..] == cs[k..]
    requires forall j :: 0 <= j < k ==> cs[j].value.JArr? && out[j] == Canon(cs[j])
    requires !cs[k].value.JArr?
    ensures SortArrays(op, cs) == Partial(out, Some(NotAnArray(op, cs[k].field)))
  {
    SortArraysFailsAt(op, cs, k);
    var r := SortArrays(op, cs);
    forall j | k <= j < |cs| ensures out[j] == cs[j] {
      assert out[j] == out[k..][j - k];
    }
    assert forall j :: 0 <= j < |cs| ==> out[j] == r.value[j];
    assert out == r.value;
  }

  /** The in-place sort of a group visited every value: it has sorted them all. */
  lemma SortArraysEnds(op: Comparator, cs: seq<Cond>, out: seq<Cond>)
    requires |cs| == |out|
    requires forall j :: 0 <= j < |cs| ==> cs[j].value.JArr? && out[j] == Canon(cs[j])
    ensures SortArrays(op, cs) == Partial(out, None)
  {
    var r := SortArrays(op, cs);
    assert forall j :: 0 <= j < |cs| ==> out[j] == r.value[j];
    assert out == r.value;
  }

  /** One more pass of the hash loop keeps its invariant. */
  lemma HashLoopAdvances(d: seq<Entry>, i: nat, before: seq<Entry>, e: Entry)
    requires i < |d| == |before| && before[i..] == d[i..]
    requires forall j :: 0 <= j < i ==> SortedEntry(d[j]).failure.None? && before[j] == SortedEntry(d[j]).value
    requires SortedEntry(d[i]) == Partial(e, None)
    ensures before[i := e][i + 1..] == d[i + 1..]
    ensures forall j :: 0 <= j < i + 1 ==>
      SortedEntry(d[j]).failure.None? && before[i := e][j] == SortedEntry(d[j]).value
    ensures Scan(before[i := e][..i + 1]) == Step(Scan(before[..i]), e)
  {
    var after := before[i := e];
    forall j | i + 1 <= j < |d| ensures after[j] == d[j] {
      assert before[j] == before[i..][j - i];
    }
    assert after[i + 1..] == d[i + 1..];
    ScanAppend(before[..i], e);
    assert after[..i + 1] == before[..i] + [e];
  }

  /** The hash loop stopped at property i: what it has left is what Normalize says. */
  lemma HashLoopStops(d: seq<Entry>, i: nat, before: seq<Entry>)
    requires i < |d| == |before| && before[i..] == d[i..]
    requires forall j :: 0 <= j < i ==> SortedEntry(d[j]).failure.None? && before[j] == SortedEntry(d[j]).value
    requires SortedEntry(d[i]).failure.Some?
    ensures Normalize(d) == Partial(before[i := SortedEntry(d[i]).value], SortedEntry(d[i]).failure)
  {
    NormalizeFailsAt(d, i);
    LeftAt(d, i, before, Normalize(d).value);
  }

  /** Pointwise agreement of what the hash loop left with a normalised descriptor. */
  lemma LeftAt(d: seq<Entry>, i: nat, before: seq<Entry>, n: seq<Entry>)
    requires i < |d| == |before| == |n| && before[i..] == d[i..]
    requires forall j :: 0 <= j < i ==> before[j] == SortedEntry(d[j]).value
    requires forall j :: 0 <= j < |d| ==> n[j] == if j <= i then SortedEntry(d[j]).value else d[j]
    ensures n == before[i := SortedEntry(d[i]).value]
  {
    var sorted := before[i := SortedEntry(d[i]).value];
    forall j | i < j < |d| ensures sorted[j] == d[j] {
      assert before[j] == before[i..][j - i];
    }
  }

  /** The hash loop ran to the end: what it has left is what Normalize says. */
  lemma HashLoopEnds(d: seq<Entry>, sorted: seq<Entry>)
    requires |sorted| == |d|
    requires forall j :: 0 <= j < |d| ==> SortedEntry(d[j]).failure.None? && sorted[j] == SortedEntry(d[j]).value
    ensures Normalize(d) == Partial(sorted, None)
  {
    NormalizeAllOk(d);
    var n := Normalize(d);
    SameAt(sorted, n.value);
  }

  /** Sequences that agree at every position are equal. */
  lemma SameAt<T>(a: seq<T>, b: seq<T>)
    requires |a| == |b| && forall j :: 0 <= j < |a| ==> a[j] == b[j]
    ensures a == b
  {
  }
}
