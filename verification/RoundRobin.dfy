/** Stratified round-robin selection of annotation rows. */
module RoundRobin {
  import opened Sorting

  datatype Stratum = Stratum(group: string, recallRisk: bool, proxyPositive: bool)

  datatype Row = Row(
    id: string,
    stratum: Stratum,
    recordId: string,
    candidate: string,
    evidence: string,
    start: nat,
    end: nat,
    context: string,
    contextStart: nat,
    contextEnd: nat)

  /** Python's tuple order, `False` before `True`. */
  predicate StratumLe(a: Stratum, b: Stratum) {
    if a.group != b.group then StringLe(a.group, b.group)
    else if a.recallRisk != b.recallRisk then !a.recallRisk
    else !a.proxyPositive || b.proxyPositive
  }

  predicate IdLe(a: Row, b: Row) {
    StringLe(a.id, b.id)
  }

  ghost predicate DistinctIds(rows: seq<Row>) {
    forall i, j :: 0 <= i < j < |rows| ==> rows[i].id != rows[j].id
  }

  // ---------- the specification: rounds over sorted buckets ----------

  /** The rows of one stratum, in order. */
  function Of(rows: seq<Row>, key: Stratum): seq<Row> {
    if rows == [] then []
    else (if rows[0].stratum == key then [rows[0]] else []) + Of(rows[1..], key)
  }

  function FirstOf(bucket: seq<Row>): seq<Row> {
    if bucket == [] then [] else bucket[..1]
  }

  function RestOf(bucket: seq<Row>): seq<Row> {
    if bucket == [] then [] else bucket[1..]
  }

  /** One round: the first row of every bucket that has one. */
  function Heads(buckets: seq<seq<Row>>): seq<Row> {
    if buckets == [] then [] else FirstOf(buckets[0]) + Heads(buckets[1..])
  }

  function Tails(buckets: seq<seq<Row>>): seq<seq<Row>> {
    if buckets == [] then [] else [RestOf(buckets[0])] + Tails(buckets[1..])
  }

  function Total(buckets: seq<seq<Row>>): nat {
    if buckets == [] then 0 else |buckets[0]| + Total(buckets[1..])
  }

  lemma {:induction false} TotalOfTails(buckets: seq<seq<Row>>)
    ensures Total(Tails(buckets)) + |Heads(buckets)| == Total(buckets)
    ensures |Tails(buckets)| == |buckets|
  {
    if buckets != [] { TotalOfTails(buckets[1..]); }
  }

  lemma {:induction false} HeadsOfNothing(buckets: seq<seq<Row>>)
    ensures Heads(buckets) == [] <==> forall k :: 0 <= k < |buckets| ==> buckets[k] == []
    ensures Heads(buckets) == [] ==> Total(buckets) == 0
  {
    if buckets != [] {
      HeadsOfNothing(buckets[1..]);
      assert forall k :: 1 <= k < |buckets| ==> buckets[k] == buckets[1..][k - 1];
      assert forall k :: 0 <= k < |buckets| - 1 ==> buckets[1..][k] == buckets[k + 1];
    }
  }

  /** All rounds, one after the other. */
  function Rounds(buckets: seq<seq<Row>>): seq<Row>
    decreases Total(buckets)
  {
    if Heads(buckets) == [] then []
    else
      assert Total(Tails(buckets)) < Total(buckets) by { TotalOfTails(buckets); }
      Heads(buckets) + Rounds(Tails(buckets))
  }

  /** The strata that occur, in order of their first row. */
  function Strata(rows: seq<Row>): seq<Stratum> {
    if rows == [] then []
    else
      var before := Strata(rows[..|rows| - 1]);
      var last := rows[|rows| - 1].stratum;
      if last in before then before else before + [last]
  }

  function Buckets(rows: seq<Row>, keys: seq<Stratum>): (bs: seq<seq<Row>>)
    ensures |bs| == |keys|
  {
    seq(|keys|, k requires 0 <= k < |keys| => Sort(Of(rows, keys[k]), IdLe))
  }

  function SortedStrata(rows: seq<Row>): seq<Stratum> {
    Sort(Strata(rows), StratumLe)
  }

  /** Everything the selection would take if it had no limit. */
  function FullOrder(rows: seq<Row>): seq<Row> {
    Rounds(Buckets(rows, SortedStrata(rows)))
  }

  function Selection(rows: seq<Row>, limit: int): seq<Row> {
    var full := FullOrder(rows);
    if limit <= 0 then [] else if limit < |full| then full[..limit] else full
  }

  lemma {:induction false} OfConcat(a: seq<Row>, b: seq<Row>, key: Stratum)
    ensures Of(a + b, key) == Of(a, key) + Of(b, key)
  {
    if a == [] {
      assert a + b == b;
    } else {
      assert (a + b)[1..] == a[1..] + b;
      OfConcat(a[1..], b, key);
    }
  }

  lemma {:induction false} OfMembers(rows: seq<Row>, key: Stratum)
    ensures forall r :: r in Of(rows, key) <==> r in rows && r.stratum == key
  {
    if rows != [] {
      OfMembers(rows[1..], key);
      assert rows == [rows[0]] + rows[1..];
    }
  }

  lemma {:induction false} StrataAppend(rows: seq<Row>, row: Row)
    ensures Strata(rows + [row]) ==
      if row.stratum in Strata(rows) then Strata(rows) else Strata(rows) + [row.stratum]
  {
    assert (rows + [row])[..|rows|] == rows;
  }

  lemma {:induction false} StrataOccur(rows: seq<Row>)
    ensures forall key :: key in Strata(rows) <==> exists r :: r in rows && r.stratum == key
    ensures forall i, j :: 0 <= i < j < |Strata(rows)| ==> Strata(rows)[i] != Strata(rows)[j]
  {
    if rows != [] {
      var n := |rows| - 1;
      StrataOccur(rows[..n]);
      assert rows == rows[..n] + [rows[n]];
      StrataAppend(rows[..n], rows[n]);
    }
  }

  // ---------- the loop ----------

  predicate Covers(strata: map<Stratum, seq<Row>>, keys: seq<Stratum>) {
    forall key :: key in keys ==> key in strata
  }

  function Lists(strata: map<Stratum, seq<Row>>, keys: seq<Stratum>): (bs: seq<seq<Row>>)
    requires Covers(strata, keys)
    ensures |bs| == |keys|
  {
    seq(|keys|, k requires 0 <= k < |keys| => strata[keys[k]])
  }

  /** What a round still yields when the buckets before `k` have been visited. */
  ghost function Remaining(buckets: seq<seq<Row>>, k: nat): seq<Row>
    requires k <= |buckets|
  {
    Heads(buckets[k..]) + Rounds(buckets[..k] + Tails(buckets[k..]))
  }

  lemma {:induction false} RemainingAtStart(buckets: seq<seq<Row>>)
    ensures Remaining(buckets, 0) == Rounds(buckets)
  {
    assert buckets[0..] == buckets;
    assert buckets[..0] + Tails(buckets) == Tails(buckets);
    if Heads(buckets) == [] {
      NoHeadsNoTails(buckets);
    }
  }

  lemma {:induction false} NoHeadsNoTails(buckets: seq<seq<Row>>)
    requires Heads(buckets) == []
    ensures Tails(buckets) == buckets
  {
    HeadsOfNothing(buckets);
    if buckets != [] {
      assert buckets[0] == [];
      assert buckets == [buckets[0]] + buckets[1..];
      NoHeadsNoTails(buckets[1..]);
    }
  }

  lemma {:induction false} RemainingAtEnd(buckets: seq<seq<Row>>)
    ensures Remaining(buckets, |buckets|) == Rounds(buckets)
  {
    assert buckets[|buckets|..] == [];
    assert buckets[..|buckets|] + Tails([]) == buckets;
  }

  /** Visiting bucket `k` takes its first row, if it has one. */
  lemma {:induction false} RemainingStep(buckets: seq<seq<Row>>, k: nat)
    requires k < |buckets|
    ensures Remaining(buckets, k) == FirstOf(buckets[k]) + Remaining(buckets[k := RestOf(buckets[k])], k + 1)
  {
    var after := buckets[k := RestOf(buckets[k])];
    assert buckets[k..] == [buckets[k]] + buckets[k + 1..];
    assert after[k + 1..] == buckets[k + 1..];
    assert buckets[..k] + Tails(buckets[k..]) == after[..k + 1] + Tails(after[k + 1..]);
  }

  /** The buckets and the order of arrival after some rows. */
  ghost predicate Filled(rows: seq<Row>, strata: map<Stratum, seq<Row>>, arrived: seq<Stratum>) {
    && arrived == Strata(rows)
    && (forall key :: key in arrived <==> key in strata)
    && forall key :: key in strata ==> strata[key] == Of(rows, key)
  }

  lemma {:induction false} FillStep(rows: seq<Row>, row: Row, strata: map<Stratum, seq<Row>>, arrived: seq<Stratum>)
    requires Filled(rows, strata, arrived)
    ensures var key := row.stratum;
      if key in strata then Filled(rows + [row], strata[key := strata[key] + [row]], arrived)
      else Filled(rows + [row], strata[key := [row]], arrived + [key])
  {
    var key := row.stratum;
    StrataAppend(rows, row);
    forall other
      ensures Of(rows + [row], other) == Of(rows, other) + if other == key then [row] else []
    {
      OfConcat(rows, [row], other);
    }
    if key !in strata { StratumWithoutRows(rows, key); }
  }

  /** The first loop: one list of rows for every stratum, and the strata in order of arrival. */
  method FillBuckets(rows: seq<Row>) returns (strata: map<Stratum, seq<Row>>, arrived: seq<Stratum>)
    ensures Filled(rows, strata, arrived)
  {
    strata, arrived := map[], [];
    for i := 0 to |rows|
      invariant Filled(rows[..i], strata, arrived)
    {
      var row := rows[i];
      var key := row.stratum;
      assert rows[..i + 1] == rows[..i] + [row];
      FillStep(rows[..i], row, strata, arrived);
      if key in strata {
        strata := strata[key := strata[key] + [row]];
      } else {
        strata := strata[key := [row]];
        arrived := arrived + [key];
      }
    }
    assert rows[..|rows|] == rows;
  }

  lemma {:induction false} StratumWithoutRows(rows: seq<Row>, key: Stratum)
    requires key !in Strata(rows)
    ensures Of(rows, key) == []
  {
    StrataOccur(rows);
    OfMembers(rows, key);
    assert Of(rows, key) != [] ==> Of(rows, key)[0] in Of(rows, key);
  }

  lemma {:induction false} SortedStrataOccur(rows: seq<Row>)
    ensures var keys := SortedStrata(rows);
      && (forall key :: key in keys <==> key in Strata(rows))
      && (forall i, j :: 0 <= i < j < |keys| ==> keys[i] != keys[j])
  {
    StrataOccur(rows);
    SortPermutes(Strata(rows), StratumLe);
    DistinctPermutes(Strata(rows), SortedStrata(rows));
  }

  lemma {:induction false} DistinctPermutes<T>(a: seq<T>, b: seq<T>)
    requires multiset(a) == multiset(b)
    requires forall i, j :: 0 <= i < j < |a| ==> a[i] != a[j]
    ensures forall x :: x in a <==> x in b
    ensures forall i, j :: 0 <= i < j < |b| ==> b[i] != b[j]
  {
    forall x
      ensures x in a <==> x in b
    {
      assert x in multiset(a) <==> x in multiset(b);
    }
    forall i, j | 0 <= i < j < |b|
      ensures b[i] != b[j]
    {
      CountAtMostOne(a, b[i]);
      if b[i] == b[j] { TwicePresent(b, i, j); }
    }
  }

  lemma {:induction false} TwicePresent<T>(b: seq<T>, i: nat, j: nat)
    requires i < j < |b| && b[i] == b[j]
    ensures multiset(b)[b[i]] >= 2
  {
    assert b == b[..j] + b[j..] && b[..j][i] == b[i] && b[j..][0] == b[j];
    assert multiset(b) == multiset(b[..j]) + multiset(b[j..]);
    assert b[i] in multiset(b[..j]) && b[i] in multiset(b[j..]);
  }

  lemma {:induction false} CountAtMostOne<T>(a: seq<T>, x: T)
    requires forall i, j :: 0 <= i < j < |a| ==> a[i] != a[j]
    ensures multiset(a)[x] <= 1
  {
    if a != [] {
      assert a == [a[0]] + a[1..];
      CountAtMostOne(a[1..], x);
      assert x == a[0] ==> x !in a[1..];
    }
  }

  predicate Distinct(keys: seq<Stratum>) {
    forall i, j :: 0 <= i < j < |keys| ==> keys[i] != keys[j]
  }

  lemma {:induction false} ListsUpdate(strata: map<Stratum, seq<Row>>, keys: seq<Stratum>, k: nat, bucket: seq<Row>)
    requires Distinct(keys) && k < |keys| && Covers(strata, keys)
    ensures Lists(strata[keys[k] := bucket], keys) == Lists(strata, keys)[k := bucket]
  {
  }

  /** Visiting stratum `k` in the map of buckets. */
  lemma {:induction false} VisitBucket(strata: map<Stratum, seq<Row>>, keys: seq<Stratum>, k: nat)
    requires Distinct(keys) && k < |keys| && Covers(strata, keys)
    ensures var bucket := strata[keys[k]]; var after := strata[keys[k] := RestOf(bucket)];
      && Covers(after, keys)
      && Remaining(Lists(strata, keys), k) == FirstOf(bucket) + Remaining(Lists(after, keys), k + 1)
      && (EmptyUpTo(strata, keys, k) && bucket == [] ==> EmptyUpTo(after, keys, k + 1))
  {
    RemainingStep(Lists(strata, keys), k);
    ListsUpdate(strata, keys, k, RestOf(strata[keys[k]]));
  }

  predicate EmptyUpTo(strata: map<Stratum, seq<Row>>, keys: seq<Stratum>, k: nat)
    requires k <= |keys| && Covers(strata, keys)
  {
    forall j :: 0 <= j < k ==> strata[keys[j]] == []
  }

  lemma {:induction false} TakeFirst(taken: seq<Row>, first: seq<Row>, remaining: seq<Row>)
    ensures (taken + first) + remaining == taken + (first + remaining)
  {
  }

  lemma {:induction false} RoundEnds(strata: map<Stratum, seq<Row>>, keys: seq<Stratum>)
    requires Covers(strata, keys)
    ensures Remaining(Lists(strata, keys), |keys|) == Rounds(Lists(strata, keys))
    ensures EmptyUpTo(strata, keys, |keys|) ==> Rounds(Lists(strata, keys)) == []
  {
    RemainingAtEnd(Lists(strata, keys));
    HeadsOfNothing(Lists(strata, keys));
  }

  /** In the middle of a pass: what is taken and what remains make up the full order. */
  ghost predicate Visiting(strata: map<Stratum, seq<Row>>, keys: seq<Stratum>, k: nat, selected: seq<Row>, taken: seq<Row>, full: seq<Row>) {
    && k <= |keys| && Covers(strata, keys) && |selected| <= |taken|
    && taken + Remaining(Lists(strata, keys), k) == full
    && (|taken| == |selected| ==> EmptyUpTo(strata, keys, k))
  }

  lemma {:induction false} VisitStep(strata: map<Stratum, seq<Row>>, keys: seq<Stratum>, k: nat, selected: seq<Row>, taken: seq<Row>, full: seq<Row>)
    requires Distinct(keys) && k < |keys| && Visiting(strata, keys, k, selected, taken, full)
    ensures var bucket := strata[keys[k]];
      if bucket == [] then Visiting(strata, keys, k + 1, selected, taken, full)
      else Visiting(strata[keys[k] := bucket[1..]], keys, k + 1, selected, taken + [bucket[0]], full)
  {
    if strata[keys[k]] == [] {
      VisitEmpty(strata, keys, k, selected, taken, full);
    } else {
      VisitPops(strata, keys, k, selected, taken, full);
    }
  }

  lemma {:induction false} VisitEmpty(strata: map<Stratum, seq<Row>>, keys: seq<Stratum>, k: nat, selected: seq<Row>, taken: seq<Row>, full: seq<Row>)
    requires Distinct(keys) && k < |keys| && Visiting(strata, keys, k, selected, taken, full) && strata[keys[k]] == []
    ensures Visiting(strata, keys, k + 1, selected, taken, full)
  {
    VisitBucket(strata, keys, k);
    UpdateSame(strata, keys[k]);
    TakeNothing(Remaining(Lists(strata, keys), k + 1));
  }

  lemma {:induction false} UpdateSame(strata: map<Stratum, seq<Row>>, key: Stratum)
    requires key in strata && strata[key] == []
    ensures strata[key := RestOf(strata[key])] == strata
  {
  }

  lemma {:induction false} TakeNothing(remaining: seq<Row>)
    ensures FirstOf([]) + remaining == remaining
  {
  }

  lemma {:induction false} VisitPops(strata: map<Stratum, seq<Row>>, keys: seq<Stratum>, k: nat, selected: seq<Row>, taken: seq<Row>, full: seq<Row>)
    requires Distinct(keys) && k < |keys| && Visiting(strata, keys, k, selected, taken, full) && strata[keys[k]] != []
    ensures var bucket := strata[keys[k]];
      Visiting(strata[keys[k] := bucket[1..]], keys, k + 1, selected, taken + [bucket[0]], full)
  {
    var bucket := strata[keys[k]];
    VisitBucket(strata, keys, k);
    assert FirstOf(bucket) == [bucket[0]];
    TakeFirst(taken, [bucket[0]], Remaining(Lists(strata[keys[k] := bucket[1..]], keys), k + 1));
  }

  /** Between two passes: what is taken and all that is left make up the full order. */
  ghost predicate BetweenRounds(strata: map<Stratum, seq<Row>>, keys: seq<Stratum>, taken: seq<Row>, full: seq<Row>) {
    Covers(strata, keys) && taken + Rounds(Lists(strata, keys)) == full
  }

  lemma {:induction false} VisitStart(strata: map<Stratum, seq<Row>>, keys: seq<Stratum>, selected: seq<Row>, full: seq<Row>)
    requires BetweenRounds(strata, keys, selected, full)
    ensures Visiting(strata, keys, 0, selected, selected, full)
  {
    RemainingAtStart(Lists(strata, keys));
  }

  lemma {:induction false} VisitEnd(strata: map<Stratum, seq<Row>>, keys: seq<Stratum>, k: nat, selected: seq<Row>, taken: seq<Row>, full: seq<Row>)
    requires Visiting(strata, keys, k, selected, taken, full)
    ensures taken <= full && |selected| <= |taken|
    ensures k == |keys| ==> BetweenRounds(strata, keys, taken, full)
    ensures k == |keys| && |taken| == |selected| ==> taken == full
  {
    if k == |keys| { RoundEnds(strata, keys); }
  }

  /** The body of the inner loop: pop the first row of a bucket, if it has one. */
  method VisitOne(strata: map<Stratum, seq<Row>>, keys: seq<Stratum>, k: nat, taken: seq<Row>, ghost selected: seq<Row>, ghost full: seq<Row>)
    returns (more: seq<Row>, rest: map<Stratum, seq<Row>>, popped: bool)
    requires Distinct(keys) && k < |keys| && Visiting(strata, keys, k, selected, taken, full)
    ensures Visiting(rest, keys, k + 1, selected, more, full)
    ensures |more| == |taken| + if popped then 1 else 0
  {
    VisitStep(strata, keys, k, selected, taken, full);
    var bucket := strata[keys[k]];
    if bucket == [] { return taken, strata, false; }
    return taken + [bucket[0]], strata[keys[k] := bucket[1..]], true;
  }

  /** The body of the outer loop: one pass over the strata, cut short when the limit is reached. */
  method OneRound(strata: map<Stratum, seq<Row>>, keys: seq<Stratum>, limit: int, selected: seq<Row>, ghost full: seq<Row>)
    returns (taken: seq<Row>, rest: map<Stratum, seq<Row>>, progressed: bool)
    requires Distinct(keys) && |selected| < limit && BetweenRounds(strata, keys, selected, full)
    ensures |selected| <= |taken| <= limit && taken <= full
    ensures |taken| < limit ==> BetweenRounds(rest, keys, taken, full)
    ensures progressed <==> |selected| < |taken|
    ensures !progressed ==> taken == full
  {
    taken, rest, progressed := selected, strata, false;
    VisitStart(rest, keys, selected, full);
    var k := 0;
    while k < |keys| && |taken| < limit
      invariant k <= |keys| && |selected| <= |taken| <= limit
      invariant Visiting(rest, keys, k, selected, taken, full)
      invariant progressed <==> |selected| < |taken|
    {
      var popped;
      taken, rest, popped := VisitOne(rest, keys, k, taken, selected, full);
      progressed := progressed || popped;
      k := k + 1;
    }
    VisitEnd(rest, keys, k, selected, taken, full);
  }

  function SortEach(strata: map<Stratum, seq<Row>>): map<Stratum, seq<Row>> {
    map key | key in strata :: Sort(strata[key], IdLe)
  }

  /** Sorting each bucket, and the strata, gives the buckets in the order in which they are visited. */
  lemma {:induction false} SortedBuckets(rows: seq<Row>, strata: map<Stratum, seq<Row>>, arrived: seq<Stratum>)
    requires Filled(rows, strata, arrived)
    ensures var keys, sorted := SortedStrata(rows), SortEach(strata);
      && keys == Sort(arrived, StratumLe) && Distinct(keys) && Covers(sorted, keys)
      && Lists(sorted, keys) == Buckets(rows, keys)
  {
    SortedStrataOccur(rows);
    var keys := SortedStrata(rows);
    assert Lists(SortEach(strata), keys) == Buckets(rows, keys);
  }

  /** `_stable_round_robin`: fill the buckets, sort them, and pop from them in turn. */
  method StableRoundRobin(rows: seq<Row>, limit: int) returns (selected: seq<Row>)
    ensures selected == Selection(rows, limit)
  {
    var strata, arrived := FillBuckets(rows);
    var keys := Sort(arrived, StratumLe);
    SortedBuckets(rows, strata, arrived);
    strata := SortEach(strata);

    ghost var full := FullOrder(rows);
    selected := [];
    while |selected| < limit
      invariant selected <= full && (|selected| <= limit || selected == [])
      invariant |selected| < limit ==> BetweenRounds(strata, keys, selected, full)
      decreases limit - |selected|
    {
      var progressed;
      selected, strata, progressed := OneRound(strata, keys, limit, selected, full);
      if !progressed { break; }
    }
  }

  // ---------- how much is selected ----------

  function Pool(buckets: seq<seq<Row>>): multiset<Row> {
    if buckets == [] then multiset{} else multiset(buckets[0]) + Pool(buckets[1..])
  }

  lemma {:induction false} PoolSplits(buckets: seq<seq<Row>>)
    ensures Pool(buckets) == multiset(Heads(buckets)) + Pool(Tails(buckets))
  {
    if buckets != [] {
      PoolSplits(buckets[1..]);
      BucketSplits(buckets[0]);
      PoolOfTails(buckets);
      assert Heads(buckets) == FirstOf(buckets[0]) + Heads(buckets[1..]);
    }
  }

  lemma {:induction false} BucketSplits(bucket: seq<Row>)
    ensures multiset(bucket) == multiset(FirstOf(bucket)) + multiset(RestOf(bucket))
  {
    assert bucket == FirstOf(bucket) + RestOf(bucket);
  }

  lemma {:induction false} PoolOfTails(buckets: seq<seq<Row>>)
    requires buckets != []
    ensures Pool(Tails(buckets)) == multiset(RestOf(buckets[0])) + Pool(Tails(buckets[1..]))
  {
    assert Tails(buckets)[1..] == Tails(buckets[1..]);
  }

  lemma {:induction false} RoundsPermute(buckets: seq<seq<Row>>)
    ensures multiset(Rounds(buckets)) == Pool(buckets)
    decreases Total(buckets)
  {
    PoolSplits(buckets);
    if Heads(buckets) != [] {
      TotalOfTails(buckets);
      RoundsPermute(Tails(buckets));
    } else {
      NoHeadsNoTails(buckets);
      EmptyPool(buckets);
    }
  }

  lemma {:induction false} EmptyPool(buckets: seq<seq<Row>>)
    requires Heads(buckets) == []
    ensures Pool(buckets) == multiset{}
  {
    if buckets != [] {
      HeadsOfNothing(buckets);
      assert buckets[0] == [];
      EmptyPool(buckets[1..]);
    }
  }

  lemma {:induction false} PoolOfBuckets(rows: seq<Row>, keys: seq<Stratum>, r: Row)
    requires Distinct(keys)
    ensures Pool(Buckets(rows, keys))[r] == if r.stratum in keys then multiset(rows)[r] else 0
  {
    if keys != [] {
      PoolOfBuckets(rows, keys[1..], r);
      PoolOfFirst(rows, keys);
      OfMultiset(rows, keys[0], r);
      assert keys == [keys[0]] + keys[1..];
    }
  }

  lemma {:induction false} PoolOfFirst(rows: seq<Row>, keys: seq<Stratum>)
    requires keys != []
    ensures Pool(Buckets(rows, keys)) == multiset(Of(rows, keys[0])) + Pool(Buckets(rows, keys[1..]))
  {
    assert Buckets(rows, keys)[1..] == Buckets(rows, keys[1..]);
    SortPermutes(Of(rows, keys[0]), IdLe);
  }

  /** Without a limit, the selection is a rearrangement of the rows. */
  lemma {:induction false} FullOrderPermutes(rows: seq<Row>)
    ensures multiset(FullOrder(rows)) == multiset(rows)
  {
    var keys := SortedStrata(rows);
    SortedStrataOccur(rows);
    StrataOccur(rows);
    RoundsPermute(Buckets(rows, keys));
    forall r
      ensures multiset(FullOrder(rows))[r] == multiset(rows)[r]
    {
      PoolOfBuckets(rows, keys, r);
      assert r in multiset(rows) <==> r in rows;
    }
  }

  /**
   * The selection has `min(limit, n)` rows (none for a limit below one), all of them given rows,
   * and none twice.
   */
  lemma {:induction false} SelectionSize(rows: seq<Row>, limit: int)
    ensures var selected := Selection(rows, limit);
      && |selected| == (if limit <= 0 then 0 else if limit < |rows| then limit else |rows|)
      && (forall r :: r in selected ==> r in rows)
      && (DistinctIds(rows) ==> DistinctIds(selected))
  {
    var full := FullOrder(rows);
    FullOrderPermutes(rows);
    assert |multiset(full)| == |multiset(rows)|;
    SameMembers(full, rows);
    if DistinctIds(rows) {
      DistinctPermutes(rows, full);
      forall i, j | 0 <= i < j < |full|
        ensures full[i].id != full[j].id
      {
        assert full[i] in rows && full[j] in rows && full[i] != full[j];
        var x :| 0 <= x < |rows| && rows[x] == full[i];
        var y :| 0 <= y < |rows| && rows[y] == full[j];
      }
    }
  }

  /** A larger limit only adds rows at the end. */
  lemma {:induction false} SelectionIsPrefixStable(rows: seq<Row>, limit: int, larger: int)
    requires limit <= larger
    ensures Selection(rows, limit) <= Selection(rows, larger)
  {
  }

  // ---------- fairness ----------

  /** Bucket `k` holds rows of stratum `keys[k]` only. */
  ghost predicate Labelled(buckets: seq<seq<Row>>, keys: seq<Stratum>) {
    && |buckets| == |keys| && Distinct(keys)
    && forall k, r :: 0 <= k < |keys| && r in buckets[k] ==> r.stratum == keys[k]
  }

  lemma {:induction false} OfUniform(rows: seq<Row>, own: Stratum, key: Stratum)
    requires forall r :: r in rows ==> r.stratum == own
    ensures Of(rows, key) == if key == own then rows else []
  {
    if rows != [] {
      assert rows == [rows[0]] + rows[1..];
      OfUniform(rows[1..], own, key);
    }
  }

  lemma {:induction false} OfFirst(buckets: seq<seq<Row>>, keys: seq<Stratum>, key: Stratum, part: seq<Row>)
    requires Labelled(buckets, keys) && buckets != [] && part <= FirstOf(buckets[0])
    ensures Of(part, key) == if key == keys[0] then part else []
  {
    forall r | r in part
      ensures r.stratum == keys[0]
    {
      assert r in FirstOf(buckets[0]);
      assert r in buckets[0];
    }
    OfUniform(part, keys[0], key);
  }

  lemma {:induction false} LabelledRest(buckets: seq<seq<Row>>, keys: seq<Stratum>)
    requires Labelled(buckets, keys) && buckets != []
    ensures Labelled(buckets[1..], keys[1..]) && keys[0] !in keys[1..]
  {
  }

  /** In a part of one round, stratum `k` has at most its first row. */
  lemma {:induction false} OfHeads(buckets: seq<seq<Row>>, keys: seq<Stratum>, k: nat, part: seq<Row>)
    requires Labelled(buckets, keys) && k < |keys| && part <= Heads(buckets)
    ensures Of(part, keys[k]) <= FirstOf(buckets[k])
    ensures part == Heads(buckets) ==> Of(part, keys[k]) == FirstOf(buckets[k])
    decreases |buckets|
  {
    var first, rest := FirstOf(buckets[0]), Heads(buckets[1..]);
    LabelledRest(buckets, keys);
    var cut := if |part| <= |first| then |part| else |first|;
    var tail := part[cut..];
    assert part[..cut] == first[..cut] && tail <= rest;
    assert part == part[..cut] + tail;
    OfFirst(buckets, keys, keys[k], part[..cut]);
    OfConcat(part[..cut], tail, keys[k]);
    if k > 0 {
      OfHeads(buckets[1..], keys[1..], k - 1, tail);
    } else {
      OfOthers(buckets[1..], keys[1..], keys[0], tail);
    }
    if part == Heads(buckets) {
      assert cut == |first| && tail == rest;
    }
  }

  lemma {:induction false} OfOthers(buckets: seq<seq<Row>>, keys: seq<Stratum>, key: Stratum, part: seq<Row>)
    requires Labelled(buckets, keys) && key !in keys && part <= Heads(buckets)
    ensures Of(part, key) == []
  {
    var chosen := Of(part, key);
    assert chosen != [] ==> chosen[0] in chosen;
    HeadsMembers(buckets);
    OfMembers(part, key);
    forall r | r in part
      ensures r.stratum != key
    {
      assert r in Heads(buckets);
      var k :| 0 <= k < |buckets| && r in buckets[k];
      assert keys[k] in keys;
    }
  }

  lemma {:induction false} HeadsMembers(buckets: seq<seq<Row>>)
    ensures forall r :: r in Heads(buckets) ==> exists k :: 0 <= k < |buckets| && r in buckets[k]
  {
    if buckets != [] {
      HeadsMembers(buckets[1..]);
      forall r | r in Heads(buckets)
        ensures exists k :: 0 <= k < |buckets| && r in buckets[k]
      {
        if r !in FirstOf(buckets[0]) {
          assert r in Heads(buckets[1..]);
          var k :| 0 <= k < |buckets| - 1 && r in buckets[1..][k];
          assert r in buckets[k + 1];
        } else {
          assert r in buckets[0];
        }
      }
    }
  }

  lemma {:induction false} TailsAt(buckets: seq<seq<Row>>)
    ensures |Tails(buckets)| == |buckets|
    ensures forall k :: 0 <= k < |buckets| ==> Tails(buckets)[k] == RestOf(buckets[k])
  {
    if buckets != [] { TailsAt(buckets[1..]); }
  }

  /** A prefix longer than one round is that round and a prefix of the later ones. */
  lemma {:induction false} RoundSplit(buckets: seq<seq<Row>>, keys: seq<Stratum>, k: nat, part: seq<Row>)
    requires Labelled(buckets, keys) && k < |keys| && part <= Rounds(buckets)
    requires |Heads(buckets)| < |part|
    ensures var tails, tail := Tails(buckets), part[|Heads(buckets)|..];
      && Total(tails) < Total(buckets) && Labelled(tails, keys) && tail <= Rounds(tails)
      && tails[k] == RestOf(buckets[k])
      && Of(part, keys[k]) == FirstOf(buckets[k]) + Of(tail, keys[k])
  {
    var heads := Heads(buckets);
    var tail := part[|heads|..];
    TotalOfTails(buckets);
    TailsAt(buckets);
    PartBehindHeads(buckets, part);
    OfConcat(heads, tail, keys[k]);
    OfHeads(buckets, keys, k, heads);
  }

  lemma {:induction false} PartBehindHeads(buckets: seq<seq<Row>>, part: seq<Row>)
    requires part <= Rounds(buckets) && |Heads(buckets)| < |part|
    ensures var tail := part[|Heads(buckets)|..];
      part == Heads(buckets) + tail && tail <= Rounds(Tails(buckets)) && Heads(buckets) != []
  {
    assert Rounds(buckets) == Heads(buckets) + if Heads(buckets) == [] then [] else Rounds(Tails(buckets));
  }

  /** In every prefix of the rounds, each stratum has a prefix of its bucket. */
  lemma {:induction false} PrefixTakesPrefixes(buckets: seq<seq<Row>>, keys: seq<Stratum>, k: nat, part: seq<Row>)
    requires Labelled(buckets, keys) && k < |keys| && part <= Rounds(buckets)
    ensures Of(part, keys[k]) <= buckets[k]
    decreases Total(buckets)
  {
    if |part| <= |Heads(buckets)| {
      OfHeads(buckets, keys, k, part);
    } else {
      RoundSplit(buckets, keys, k, part);
      var tail := part[|Heads(buckets)|..];
      PrefixTakesPrefixes(Tails(buckets), keys, k, tail);
      PrefixBehindFirst(buckets[k], Of(tail, keys[k]));
    }
  }

  lemma {:induction false} PrefixBehindFirst(bucket: seq<Row>, tail: seq<Row>)
    requires tail <= RestOf(bucket)
    ensures FirstOf(bucket) + tail <= bucket
  {
    assert bucket == FirstOf(bucket) + RestOf(bucket);
  }

  /** A stratum is two or more ahead of another only when the other has nothing left. */
  lemma {:induction false} LeadMeansExhausted(buckets: seq<seq<Row>>, keys: seq<Stratum>, a: nat, b: nat, part: seq<Row>)
    requires Labelled(buckets, keys) && a < |keys| && b < |keys| && part <= Rounds(buckets)
    requires |Of(part, keys[a])| >= |Of(part, keys[b])| + 2
    ensures Of(part, keys[b]) == buckets[b]
    decreases Total(buckets)
  {
    if |part| <= |Heads(buckets)| {
      OfHeads(buckets, keys, a, part);
    } else if buckets[b] == [] {
      PrefixTakesPrefixes(buckets, keys, b, part);
    } else {
      RoundSplit(buckets, keys, a, part);
      RoundSplit(buckets, keys, b, part);
      LeadMeansExhausted(Tails(buckets), keys, a, b, part[|Heads(buckets)|..]);
    }
  }

  lemma {:induction false} BucketsAreLabelled(rows: seq<Row>)
    ensures Labelled(Buckets(rows, SortedStrata(rows)), SortedStrata(rows))
  {
    var keys := SortedStrata(rows);
    SortedStrataOccur(rows);
    forall k, r | 0 <= k < |keys| && r in Buckets(rows, keys)[k]
      ensures r.stratum == keys[k]
    {
      SortPermutes(Of(rows, keys[k]), IdLe);
      assert r in multiset(Sort(Of(rows, keys[k]), IdLe));
      OfMembers(rows, keys[k]);
    }
  }

  /**
   * At every prefix of the selection, each stratum has contributed a prefix of its bucket sorted by
   * id, and it leads another stratum by two or more only if that one is exhausted.
   */
  lemma {:induction false} SelectionIsFair(rows: seq<Row>, limit: int, part: seq<Row>, a: Stratum, b: Stratum)
    requires part <= Selection(rows, limit) && a in Strata(rows) && b in Strata(rows)
    ensures Of(part, a) <= Sort(Of(rows, a), IdLe)
    ensures |Of(part, a)| >= |Of(part, b)| + 2 ==> Of(part, b) == Sort(Of(rows, b), IdLe)
  {
    var keys := SortedStrata(rows);
    var buckets := Buckets(rows, keys);
    BucketsAreLabelled(rows);
    SelectionIsPrefix(rows, limit, part);
    var i := BucketIndex(rows, a);
    var j := BucketIndex(rows, b);
    PrefixTakesPrefixes(buckets, keys, i, part);
    if |Of(part, a)| >= |Of(part, b)| + 2 {
      LeadMeansExhausted(buckets, keys, i, j, part);
    }
  }

  lemma {:induction false} BucketIndex(rows: seq<Row>, key: Stratum) returns (k: nat)
    requires key in Strata(rows)
    ensures var keys := SortedStrata(rows);
      k < |keys| && keys[k] == key && Buckets(rows, keys)[k] == Sort(Of(rows, key), IdLe)
  {
    SortedStrataOccur(rows);
    k :| 0 <= k < |SortedStrata(rows)| && SortedStrata(rows)[k] == key;
  }

  lemma {:induction false} SelectionIsPrefix(rows: seq<Row>, limit: int, part: seq<Row>)
    requires part <= Selection(rows, limit)
    ensures part <= Rounds(Buckets(rows, SortedStrata(rows)))
  {
  }

  // ---------- the order of the input does not matter ----------

  lemma {:induction false} StratumLeIsTotalOrder()
    ensures TotalOrder(StratumLe)
    ensures forall a, b :: StratumLe(a, b) && StratumLe(b, a) ==> a == b
  {
    forall a: Stratum, b: Stratum
      ensures StratumLe(a, b) || StratumLe(b, a)
      ensures StratumLe(a, b) && StratumLe(b, a) ==> a == b
    {
      StringLeTotal(a.group, b.group);
      if StringLe(a.group, b.group) && StringLe(b.group, a.group) { StringLeAntisymmetric(a.group, b.group); }
    }
    forall a: Stratum, b: Stratum, c: Stratum | StratumLe(a, b) && StratumLe(b, c)
      ensures StratumLe(a, c)
    {
      if a.group != b.group && b.group != c.group {
        StringLeTransitive(a.group, b.group, c.group);
        if a.group == c.group { StringLeAntisymmetric(a.group, b.group); }
      }
    }
  }

  lemma {:induction false} IdLeIsTotalOrder()
    ensures TotalOrder(IdLe)
  {
    forall a: Row, b: Row
      ensures IdLe(a, b) || IdLe(b, a)
    {
      StringLeTotal(a.id, b.id);
    }
    forall a: Row, b: Row, c: Row | IdLe(a, b) && IdLe(b, c)
      ensures IdLe(a, c)
    {
      StringLeTransitive(a.id, b.id, c.id);
    }
  }

  lemma {:induction false} OfMultiset(rows: seq<Row>, key: Stratum, r: Row)
    ensures multiset(Of(rows, key))[r] == if r.stratum == key then multiset(rows)[r] else 0
  {
    if rows != [] {
      OfMultiset(rows[1..], key, r);
      assert rows == [rows[0]] + rows[1..];
    }
  }

  /** Rows with distinct ids are selected alike in whatever order they arrive. */
  lemma {:induction false} SelectionIgnoresInputOrder(rows: seq<Row>, shuffled: seq<Row>, limit: int)
    requires DistinctIds(rows) && multiset(rows) == multiset(shuffled)
    ensures Selection(rows, limit) == Selection(shuffled, limit)
  {
    SameMembers(rows, shuffled);
    StrataOccur(rows);
    StrataOccur(shuffled);
    StratumLeIsTotalOrder();
    SameSetSameMultiset(Strata(rows), Strata(shuffled));
    SortIgnoresOrder(Strata(rows), Strata(shuffled), StratumLe);
    var keys := SortedStrata(rows);
    forall k | 0 <= k < |keys|
      ensures Buckets(rows, keys)[k] == Buckets(shuffled, keys)[k]
    {
      SameBucket(rows, shuffled, keys[k]);
    }
    assert Buckets(rows, keys) == Buckets(shuffled, keys);
  }

  lemma {:induction false} SameMembers<T>(a: seq<T>, b: seq<T>)
    requires multiset(a) == multiset(b)
    ensures forall x :: x in a <==> x in b
  {
    forall x
      ensures x in a <==> x in b
    {
      assert x in multiset(a) <==> x in multiset(b);
    }
  }

  lemma {:induction false} SameSetSameMultiset<T>(a: seq<T>, b: seq<T>)
    requires forall x :: x in a <==> x in b
    requires forall i, j :: 0 <= i < j < |a| ==> a[i] != a[j]
    requires forall i, j :: 0 <= i < j < |b| ==> b[i] != b[j]
    ensures multiset(a) == multiset(b)
  {
    forall x
      ensures multiset(a)[x] == multiset(b)[x]
    {
      CountAtMostOne(a, x);
      CountAtMostOne(b, x);
      assert x in multiset(a) <==> x in a;
      assert x in multiset(b) <==> x in b;
    }
  }

  lemma {:induction false} SameBucket(rows: seq<Row>, shuffled: seq<Row>, key: Stratum)
    requires DistinctIds(rows) && multiset(rows) == multiset(shuffled)
    ensures Sort(Of(rows, key), IdLe) == Sort(Of(shuffled, key), IdLe)
  {
    forall r
      ensures multiset(Of(rows, key))[r] == multiset(Of(shuffled, key))[r]
    {
      OfMultiset(rows, key, r);
      OfMultiset(shuffled, key, r);
    }
    assert multiset(Of(rows, key)) == multiset(Of(shuffled, key));
    IdLeIsTotalOrder();
    OfMembers(rows, key);
    forall x, y | x in Of(rows, key) && y in Of(rows, key) && IdLe(x, y) && IdLe(y, x)
      ensures x == y
    {
      StringLeAntisymmetric(x.id, y.id);
      var i :| 0 <= i < |rows| && rows[i] == x;
      var j :| 0 <= j < |rows| && rows[j] == y;
      assert i == j;
    }
    SortIgnoresOrder(Of(rows, key), Of(shuffled, key), IdLe);
  }

  // ---------- the order of the strata ----------

  /** Before the other: by group, then without recall risk before with it, then without the proxy flag before with it. */
  ghost predicate ComesBefore(a: Stratum, b: Stratum) {
    || (a.group != b.group && ReadsBefore(a.group, b.group))
    || (a.group == b.group && !a.recallRisk && b.recallRisk)
    || (a.group == b.group && a.recallRisk == b.recallRisk && !a.proxyPositive && b.proxyPositive)
  }

  /** The strata are visited in this order, each once. */
  lemma {:induction false} StrataAreOrdered(rows: seq<Row>)
    ensures forall key :: key in SortedStrata(rows) <==> exists r :: r in rows && r.stratum == key
    ensures forall i, j :: 0 <= i < j < |SortedStrata(rows)| ==> ComesBefore(SortedStrata(rows)[i], SortedStrata(rows)[j])
  {
    StrataOccur(rows);
    SortedStrataOccur(rows);
    StratumLeIsTotalOrder();
    SortSorts(Strata(rows), StratumLe);
    var keys := SortedStrata(rows);
    forall i, j | 0 <= i < j < |keys|
      ensures ComesBefore(keys[i], keys[j])
    {
      assert StratumLe(keys[i], keys[j]) && keys[i] != keys[j];
      StringLeMeans(keys[i].group, keys[j].group);
    }
  }

  lemma {:induction false} HeadOf(buckets: seq<seq<Row>>, k: nat)
    requires k < |buckets| && forall j :: 0 <= j < |buckets| ==> buckets[j] != []
    ensures |Heads(buckets)| == |buckets| && Heads(buckets)[k] == buckets[k][0]
    decreases |buckets|
  {
    var rest := buckets[1..];
    assert forall j :: 0 <= j < |rest| ==> rest[j] == buckets[j + 1];
    if k > 0 {
      HeadOf(rest, k - 1);
    } else if rest != [] {
      HeadOf(rest, 0);
    } else {
      assert Heads(rest) == [];
    }
  }

  lemma {:induction false} BucketsAreFilled(rows: seq<Row>, k: nat)
    requires k < |SortedStrata(rows)|
    ensures Buckets(rows, SortedStrata(rows))[k] != []
  {
    var key := SortedStrata(rows)[k];
    StrataOccur(rows);
    SortedStrataOccur(rows);
    assert key in SortedStrata(rows);
    OfMembers(rows, key);
    SortPermutes(Of(rows, key), IdLe);
    var r :| r in rows && r.stratum == key;
    assert r in Of(rows, key);
  }

  /** The first round takes from each stratum, in that order, the row with the least id. */
  lemma {:induction false} FirstRoundFollowsStrata(rows: seq<Row>, limit: int, k: nat)
    requires k < |Selection(rows, limit)| && k < |SortedStrata(rows)|
    ensures var row := Selection(rows, limit)[k];
      row in rows && row.stratum == SortedStrata(rows)[k]
      && forall r :: r in rows && r.stratum == row.stratum && r.id != row.id ==> ReadsBefore(row.id, r.id)
  {
    var keys := SortedStrata(rows);
    var buckets := Buckets(rows, keys);
    forall j | 0 <= j < |buckets|
      ensures buckets[j] != []
    {
      BucketsAreFilled(rows, j);
    }
    HeadOf(buckets, k);
    assert Selection(rows, limit)[k] == Heads(buckets)[k];
    LeastOfBucket(rows, keys[k]);
  }

  lemma {:induction false} LeastOfBucket(rows: seq<Row>, key: Stratum)
    requires Sort(Of(rows, key), IdLe) != []
    ensures var row := Sort(Of(rows, key), IdLe)[0];
      && row in rows && row.stratum == key
      && forall r :: r in rows && r.stratum == key && r.id != row.id ==> ReadsBefore(row.id, r.id)
  {
    var bucket := Sort(Of(rows, key), IdLe);
    OfMembers(rows, key);
    SortPermutes(Of(rows, key), IdLe);
    IdLeIsTotalOrder();
    SortSorts(Of(rows, key), IdLe);
    assert bucket[0] in multiset(bucket);
    forall r | r in rows && r.stratum == key && r.id != bucket[0].id
      ensures ReadsBefore(bucket[0].id, r.id)
    {
      assert r in multiset(Of(rows, key));
      var j :| 0 <= j < |bucket| && bucket[j] == r;
      assert IdLe(bucket[0], bucket[j]);
      StringLeMeans(bucket[0].id, r.id);
    }
  }
}
