/** Collapsing a feed to one row per key, the last one seen: in one pass over the whole feed, and
    chunk by chunk through an insertion-ordered dictionary. */
module Dedupe {
  import opened Frames

  function KeysIn(rows: seq<Row>, key: string): set<Cell> {
    set r | r in rows :: KeyOf(r, key)
  }

  predicate DistinctBy(rows: seq<Row>, key: string) {
    forall i, j | 0 <= i < j < |rows| :: KeyOf(rows[i], key) != KeyOf(rows[j], key)
  }

  // ---- What last seen means ----

  /** Row `i` is the last one with its key. */
  predicate IsLast(rows: seq<Row>, key: string, i: nat)
    requires i < |rows|
  {
    forall j | i < j < |rows| :: KeyOf(rows[j], key) != KeyOf(rows[i], key)
  }

  /** Row `i` is the first one with its key. */
  predicate IsFirst(rows: seq<Row>, key: string, i: nat)
    requires i < |rows|
  {
    forall j | 0 <= j < i :: KeyOf(rows[j], key) != KeyOf(rows[i], key)
  }

  /** `out` has exactly one row for each key of `rows`: the last one seen. */
  ghost predicate LastSeen(rows: seq<Row>, key: string, out: seq<Row>) {
    && DistinctBy(out, key)
    && KeysIn(out, key) == KeysIn(rows, key)
    && forall r | r in out :: exists i :: 0 <= i < |rows| && rows[i] == r && IsLast(rows, key, i)
  }

  // ---- The whole feed at once ----

  /** `drop_duplicates(subset=key, keep="last")`. */
  function KeepLast(rows: seq<Row>, key: string): seq<Row> {
    if rows == [] then []
    else if KeyOf(rows[0], key) in KeysIn(rows[1..], key) then KeepLast(rows[1..], key)
    else [rows[0]] + KeepLast(rows[1..], key)
  }

  /** Where in the feed each kept row stands. */
  function LastPositions(rows: seq<Row>, key: string, from: nat): seq<nat>
    requires from <= |rows|
    decreases |rows| - from
  {
    if from == |rows| then []
    else if IsLast(rows, key, from) then [from] + LastPositions(rows, key, from + 1)
    else LastPositions(rows, key, from + 1)
  }

  lemma HeadIsLast(rows: seq<Row>, key: string, from: nat)
    requires from < |rows|
    ensures KeyOf(rows[from], key) in KeysIn(rows[from + 1..], key) <==> !IsLast(rows, key, from)
  {
    var later := rows[from + 1..];
    assert forall j | from < j < |rows| :: rows[j] == later[j - from - 1];
    if r :| r in later && KeyOf(r, key) == KeyOf(rows[from], key) {
      var j :| 0 <= j < |later| && later[j] == r;
      assert rows[from + 1 + j] == r;
    }
  }

  /** `kept` are the rows at the positions `at`, which are those of the last rows from `from` on. */
  ghost predicate LastOccurrences(rows: seq<Row>, key: string, from: nat, kept: seq<Row>, at: seq<nat>) {
    && |kept| == |at|
    && (forall k | 0 <= k < |at| ::
          from <= at[k] < |rows| && IsLast(rows, key, at[k]) && kept[k] == rows[at[k]])
    && (forall k, l | 0 <= k < l < |at| :: at[k] < at[l])
    && (forall i | from <= i < |rows| && IsLast(rows, key, i) :: i in at)
  }

  lemma OneMoreOccurrence(rows: seq<Row>, key: string, from: nat, kept: seq<Row>, at: seq<nat>)
    requires from < |rows| && LastOccurrences(rows, key, from + 1, kept, at)
    ensures IsLast(rows, key, from) ==> LastOccurrences(rows, key, from, [rows[from]] + kept, [from] + at)
    ensures !IsLast(rows, key, from) ==> LastOccurrences(rows, key, from, kept, at)
  {
    var at' := [from] + at;
    assert from in at' && forall i | i in at :: i in at';
  }

  /** The result is the subsequence of the feed's last occurrences, in feed order. */
  lemma {:induction false} KeepLastIsTheLastOccurrences(rows: seq<Row>, key: string, from: nat)
    requires from <= |rows|
    ensures LastOccurrences(rows, key, from, KeepLast(rows[from..], key), LastPositions(rows, key, from))
    decreases |rows| - from
  {
    if from < |rows| {
      var kept, at := KeepLast(rows[from + 1..], key), LastPositions(rows, key, from + 1);
      KeepLastIsTheLastOccurrences(rows, key, from + 1);
      OneMoreOccurrence(rows, key, from, kept, at);
      HeadIsLast(rows, key, from);
      assert rows[from..][1..] == rows[from + 1..];
    }
  }

  /** Every key has a last row. */
  lemma {:induction false} SomeLast(rows: seq<Row>, key: string, i: nat) returns (last: nat)
    requires i < |rows|
    ensures i <= last < |rows| && IsLast(rows, key, last)
    ensures KeyOf(rows[last], key) == KeyOf(rows[i], key)
    decreases |rows| - i
  {
    if j :| i < j < |rows| && KeyOf(rows[j], key) == KeyOf(rows[i], key) {
      last := SomeLast(rows, key, j);
    } else {
      last := i;
    }
  }

  lemma {:induction false} KeepLastSeen(rows: seq<Row>, key: string)
    ensures LastSeen(rows, key, KeepLast(rows, key))
  {
    var out, at := KeepLast(rows, key), LastPositions(rows, key, 0);
    KeepLastIsTheLastOccurrences(rows, key, 0);
    assert rows[0..] == rows;
    forall k, l | 0 <= k < l < |out|
      ensures KeyOf(out[k], key) != KeyOf(out[l], key)
    {
      assert IsLast(rows, key, at[k]) && at[k] < at[l];
    }
    forall c | c in KeysIn(rows, key)
      ensures c in KeysIn(out, key)
    {
      var r :| r in rows && KeyOf(r, key) == c;
      var i :| 0 <= i < |rows| && rows[i] == r;
      var last := SomeLast(rows, key, i);
      var k :| 0 <= k < |at| && at[k] == last;
      assert out[k] in out;
    }
    forall r | r in out
      ensures exists i :: 0 <= i < |rows| && rows[i] == r && IsLast(rows, key, i)
    {
      var k :| 0 <= k < |out| && out[k] == r;
      assert rows[at[k]] == r && IsLast(rows, key, at[k]);
    }
  }

  // ---- Through an insertion-ordered dictionary ----

  /** A Python dictionary: assigning to a key that is present keeps its place. */
  datatype Dict = Dict(order: seq<Cell>, latest: map<Cell, Row>)

  ghost predicate WellKept(d: Dict) {
    && (forall c :: c in d.order <==> c in d.latest)
    && (forall i, j | 0 <= i < j < |d.order| :: d.order[i] != d.order[j])
  }

  function Assign(d: Dict, c: Cell, r: Row): (d': Dict)
    requires WellKept(d)
    ensures WellKept(d') && d'.latest == d.latest[c := r]
  {
    Dict(if c in d.latest then d.order else d.order + [c], d.latest[c := r])
  }

  function ValuesOf(d: Dict): seq<Row>
    requires WellKept(d)
  {
    seq(|d.order|, i requires 0 <= i < |d.order| => d.latest[d.order[i]])
  }

  /** The dictionary after all of `rows`. */
  function Scan(rows: seq<Row>, key: string): (d: Dict)
    ensures WellKept(d)
  {
    if rows == [] then Dict([], map[])
    else
      var last := rows[|rows| - 1];
      Assign(Scan(rows[..|rows| - 1], key), KeyOf(last, key), last)
  }

  /** `r` is the last row of the feed with key `c`. */
  ghost predicate LastUnder(rows: seq<Row>, key: string, c: Cell, r: Row) {
    exists i :: 0 <= i < |rows| && rows[i] == r && KeyOf(r, key) == c && IsLast(rows, key, i)
  }

  lemma LastUnderGrows(rows: seq<Row>, key: string, c: Cell, r: Row, last: Row)
    requires LastUnder(rows, key, c, r) && KeyOf(last, key) != c
    ensures LastUnder(rows + [last], key, c, r)
  {
    var i :| 0 <= i < |rows| && rows[i] == r && KeyOf(r, key) == c && IsLast(rows, key, i);
    assert (rows + [last])[i] == r && IsLast(rows + [last], key, i);
  }

  lemma LastUnderNew(rows: seq<Row>, key: string, last: Row)
    ensures LastUnder(rows + [last], key, KeyOf(last, key), last)
  {
    assert (rows + [last])[|rows|] == last && IsLast(rows + [last], key, |rows|);
  }

  lemma KeysInAppend(rows: seq<Row>, last: Row, key: string)
    ensures KeysIn(rows + [last], key) == KeysIn(rows, key) + {KeyOf(last, key)}
  {
    assert last in rows + [last];
  }

  /** What the dictionary holds after a feed: under each key of the feed its last row. */
  lemma {:induction false} ScanMeans(rows: seq<Row>, key: string)
    ensures Scan(rows, key).latest.Keys == KeysIn(rows, key)
    ensures forall c | c in Scan(rows, key).latest :: LastUnder(rows, key, c, Scan(rows, key).latest[c])
  {
    if rows != [] {
      var init, last := rows[..|rows| - 1], rows[|rows| - 1];
      var before, after := Scan(init, key).latest, Scan(rows, key).latest;
      ScanMeans(init, key);
      assert rows == init + [last];
      KeysInAppend(init, last, key);
      LastUnderNew(init, key, last);
      forall c | c in after && c != KeyOf(last, key)
        ensures LastUnder(rows, key, c, after[c])
      {
        LastUnderGrows(init, key, c, before[c], last);
      }
    }
  }

  /** Positions of the feed's first occurrences, in feed order. */
  function FirstPositions(rows: seq<Row>, key: string): (at: seq<nat>)
    ensures forall k | 0 <= k < |at| :: at[k] < |rows|
  {
    if rows == [] then []
    else
      var init := FirstPositions(rows[..|rows| - 1], key);
      if IsFirst(rows, key, |rows| - 1) then init + [|rows| - 1] else init
  }

  lemma FirstIffNew(rows: seq<Row>, key: string)
    requires rows != []
    ensures IsFirst(rows, key, |rows| - 1) <==> KeyOf(rows[|rows| - 1], key) !in KeysIn(rows[..|rows| - 1], key)
  {
    var init := rows[..|rows| - 1];
    assert forall j | 0 <= j < |init| :: rows[j] == init[j] && init[j] in init;
  }

  ghost predicate InFirstOrder(rows: seq<Row>, key: string, order: seq<Cell>, at: seq<nat>) {
    && |order| == |at|
    && (forall k | 0 <= k < |at| ::
          at[k] < |rows| && IsFirst(rows, key, at[k]) && order[k] == KeyOf(rows[at[k]], key))
    && (forall k, l | 0 <= k < l < |at| :: at[k] < at[l])
  }

  lemma OneMoreRow(init: seq<Row>, last: Row, key: string, order: seq<Cell>, at: seq<nat>)
    requires InFirstOrder(init, key, order, at)
    ensures InFirstOrder(init + [last], key, order, at)
    ensures IsFirst(init + [last], key, |init|) ==>
              InFirstOrder(init + [last], key, order + [KeyOf(last, key)], at + [|init|])
  {
    var rows := init + [last];
    forall k | 0 <= k < |at|
      ensures IsFirst(rows, key, at[k]) && order[k] == KeyOf(rows[at[k]], key)
    {
      assert IsFirst(init, key, at[k]);
    }
  }

  /** The dictionary's keys are in order of their first rows. */
  lemma {:induction false} ScanOrder(rows: seq<Row>, key: string)
    ensures InFirstOrder(rows, key, Scan(rows, key).order, FirstPositions(rows, key))
  {
    if rows != [] {
      var init, last := rows[..|rows| - 1], rows[|rows| - 1];
      ScanOrder(init, key);
      assert KeyOf(last, key) in Scan(init, key).latest <==> !IsFirst(rows, key, |rows| - 1) by {
        ScanMeans(init, key);
        FirstIffNew(rows, key);
      }
      assert init + [last] == rows;
      OneMoreRow(init, last, key, Scan(init, key).order, FirstPositions(init, key));
    }
  }

  lemma {:induction false} DictValues(rows: seq<Row>, key: string)
    ensures var d := Scan(rows, key);
            forall k | 0 <= k < |d.order| ::
              KeyOf(ValuesOf(d)[k], key) == d.order[k] && LastUnder(rows, key, d.order[k], ValuesOf(d)[k])
  {
    var d := Scan(rows, key);
    ScanMeans(rows, key);
    forall k | 0 <= k < |d.order|
      ensures KeyOf(ValuesOf(d)[k], key) == d.order[k] && LastUnder(rows, key, d.order[k], ValuesOf(d)[k])
    {
      assert LastUnder(rows, key, d.order[k], d.latest[d.order[k]]);
    }
  }

  lemma {:induction false} DictLastSeen(rows: seq<Row>, key: string)
    ensures LastSeen(rows, key, ValuesOf(Scan(rows, key)))
  {
    var d := Scan(rows, key);
    var out := ValuesOf(d);
    ScanMeans(rows, key);
    DictValues(rows, key);
    forall c | c in KeysIn(rows, key)
      ensures c in KeysIn(out, key)
    {
      var k :| 0 <= k < |d.order| && d.order[k] == c;
      assert out[k] in out;
    }
    forall r | r in out
      ensures KeyOf(r, key) in KeysIn(rows, key) && exists i :: 0 <= i < |rows| && rows[i] == r && IsLast(rows, key, i)
    {
      var k :| 0 <= k < |out| && out[k] == r;
      assert LastUnder(rows, key, d.order[k], r);
    }
  }

  // ---- The two agree ----

  lemma {:induction false} DistinctMultiset(rows: seq<Row>, key: string)
    requires DistinctBy(rows, key)
    ensures forall r :: multiset(rows)[r] == if r in rows then 1 else 0
  {
    if rows != [] {
      var init, last := rows[..|rows| - 1], rows[|rows| - 1];
      DistinctMultiset(init, key);
      assert rows == init + [last];
      assert last !in init;
    }
  }

  /** Rows with distinct keys number what their keys do. */
  lemma {:induction false} DistinctSize(rows: seq<Row>, key: string)
    requires DistinctBy(rows, key)
    ensures |rows| == |KeysIn(rows, key)|
  {
    if rows == [] {
      assert KeysIn(rows, key) == {};
    } else {
      var init, last := rows[..|rows| - 1], rows[|rows| - 1];
      DistinctSize(init, key);
      assert rows == init + [last];
      KeysInAppend(init, last, key);
      assert KeyOf(last, key) !in KeysIn(init, key);
    }
  }

  lemma LastSeenHas(rows: seq<Row>, key: string, out: seq<Row>, i: nat)
    requires LastSeen(rows, key, out) && i < |rows| && IsLast(rows, key, i)
    ensures rows[i] in out
  {
    assert KeyOf(rows[i], key) in KeysIn(rows, key);
    var r :| r in out && KeyOf(r, key) == KeyOf(rows[i], key);
    var j :| 0 <= j < |rows| && rows[j] == r && IsLast(rows, key, j);
    assert i == j;
  }

  /** One row per key, the last seen, leaves no choice but the order. */
  lemma LastSeenIsUniqueUpToOrder(rows: seq<Row>, key: string, a: seq<Row>, b: seq<Row>)
    requires LastSeen(rows, key, a) && LastSeen(rows, key, b)
    ensures multiset(a) == multiset(b)
  {
    DistinctMultiset(a, key);
    DistinctMultiset(b, key);
    forall r | r in a
      ensures r in b
    {
      var i :| 0 <= i < |rows| && rows[i] == r && IsLast(rows, key, i);
      LastSeenHas(rows, key, b, i);
    }
    forall r | r in b
      ensures r in a
    {
      var i :| 0 <= i < |rows| && rows[i] == r && IsLast(rows, key, i);
      LastSeenHas(rows, key, a, i);
    }
  }

  /** The two ways of deduplicating one feed return the same rows, in different orders. */
  lemma {:induction false} TheTwoAgree(rows: seq<Row>, key: string)
    ensures multiset(KeepLast(rows, key)) == multiset(ValuesOf(Scan(rows, key)))
  {
    KeepLastSeen(rows, key);
    DictLastSeen(rows, key);
    LastSeenIsUniqueUpToOrder(rows, key, KeepLast(rows, key), ValuesOf(Scan(rows, key)));
  }

  // ---- When they agree in order too ----

  /** Row `i` brings a new key, row `j` a later new one, and yet `i`'s key comes back after the
      last row with `j`'s. */
  predicate Overtakes(rows: seq<Row>, key: string, i: nat, j: nat) {
    && i < j < |rows| && IsFirst(rows, key, i) && IsFirst(rows, key, j)
    && exists l :: j < l < |rows| && KeyOf(rows[l], key) == KeyOf(rows[i], key) && NoneAfter(rows, key, l, j)
  }

  predicate NoneAfter(rows: seq<Row>, key: string, l: nat, j: nat)
    requires l < |rows| && j < |rows|
  {
    forall m | l < m < |rows| :: KeyOf(rows[m], key) != KeyOf(rows[j], key)
  }

  /** Increasing positions are determined by which they are. */
  lemma {:induction false} IncreasingIsUnique(a: seq<nat>, b: seq<nat>)
    requires forall k, l | 0 <= k < l < |a| :: a[k] < a[l]
    requires forall k, l | 0 <= k < l < |b| :: b[k] < b[l]
    requires forall x :: x in a <==> x in b
    ensures a == b
  {
    if a != [] {
      assert a[0] in b;
    }
    if b != [] {
      assert b[0] in a;
    }
    if a != [] {
      var x, y := a[|a| - 1], b[|b| - 1];
      assert x in b && y in a;
      assert x == y;
      var a', b' := a[..|a| - 1], b[..|b| - 1];
      assert a == a' + [x] && b == b' + [x];
      assert x !in a' && x !in b';
      forall z
        ensures z in a' <==> z in b'
      {
        assert z in a <==> z in a' || z == x;
        assert z in b <==> z in b' || z == x;
      }
      IncreasingIsUnique(a', b');
    }
  }

  /** Row `i` is the last one with the dictionary's `k`-th key. */
  ghost predicate HoldsAt(rows: seq<Row>, key: string, k: nat, i: nat) {
    var d := Scan(rows, key);
    && k < |d.order| && i < |rows| && IsLast(rows, key, i)
    && KeyOf(rows[i], key) == d.order[k] && ValuesOf(d)[k] == rows[i]
  }

  /** Where the last row under each of the dictionary's keys stands, in the dictionary's order. */
  ghost predicate DictAt(rows: seq<Row>, key: string, at: seq<nat>) {
    && |at| == |Scan(rows, key).order|
    && forall k | 0 <= k < |at| :: HoldsAt(rows, key, k, at[k])
  }

  lemma DictPositions(rows: seq<Row>, key: string) returns (at: seq<nat>)
    ensures DictAt(rows, key, at)
    ensures forall i | 0 <= i < |rows| && IsLast(rows, key, i) :: i in at
  {
    at := [];
    while |at| < |Scan(rows, key).order|
      invariant |at| <= |Scan(rows, key).order|
      invariant forall k | 0 <= k < |at| :: HoldsAt(rows, key, k, at[k])
    {
      var i := DictPosition(rows, key, |at|);
      at := at + [i];
    }
    forall i | 0 <= i < |rows| && IsLast(rows, key, i)
      ensures i in at
    {
      var k := PlaceOf(rows, key, i);
      assert HoldsAt(rows, key, k, at[k]);
      SameKeySameLast(rows, key, at[k], i);
    }
  }

  lemma DictPosition(rows: seq<Row>, key: string, k: nat) returns (i: nat)
    requires k < |Scan(rows, key).order|
    ensures HoldsAt(rows, key, k, i)
  {
    var d := Scan(rows, key);
    DictValues(rows, key);
    assert LastUnder(rows, key, d.order[k], ValuesOf(d)[k]);
    i :| 0 <= i < |rows| && rows[i] == ValuesOf(d)[k] && KeyOf(rows[i], key) == d.order[k] && IsLast(rows, key, i);
  }

  lemma SameKeySameLast(rows: seq<Row>, key: string, p: nat, q: nat)
    requires p < |rows| && IsLast(rows, key, p)
    requires q < |rows| && IsLast(rows, key, q)
    requires KeyOf(rows[p], key) == KeyOf(rows[q], key)
    ensures p == q
  {
  }

  /** Every row's key has its place in the dictionary. */
  lemma PlaceOf(rows: seq<Row>, key: string, i: nat) returns (k: nat)
    requires i < |rows|
    ensures k < |Scan(rows, key).order| && Scan(rows, key).order[k] == KeyOf(rows[i], key)
  {
    ScanMeans(rows, key);
    assert KeyOf(rows[i], key) in KeysIn(rows, key);
    assert KeyOf(rows[i], key) in Scan(rows, key).order;
    k :| 0 <= k < |Scan(rows, key).order| && Scan(rows, key).order[k] == KeyOf(rows[i], key);
  }

  /** Keys whose last rows come in the opposite order of their first ones. */
  lemma OvertakenMeans(rows: seq<Row>, key: string, i: nat, j: nat, p: nat, q: nat)
    requires i < j < |rows| && IsFirst(rows, key, i) && IsFirst(rows, key, j)
    requires p < |rows| && IsLast(rows, key, p) && KeyOf(rows[p], key) == KeyOf(rows[i], key)
    requires q < |rows| && IsLast(rows, key, q) && KeyOf(rows[q], key) == KeyOf(rows[j], key)
    ensures Overtakes(rows, key, i, j) <==> q < p
  {
    assert j <= q && KeyOf(rows[i], key) != KeyOf(rows[j], key);
    if q < p {
      assert NoneAfter(rows, key, p, j);
    }
  }

  /** The two ways return the very same sequence exactly when no key of the feed overtakes another
      one that came after it. */
  lemma {:induction false} SameOrderIffNoneOvertakes(rows: seq<Row>, key: string)
    ensures KeepLast(rows, key) == ValuesOf(Scan(rows, key)) <==> forall i, j :: !Overtakes(rows, key, i, j)
  {
    var at := DictPositions(rows, key);
    var firsts := FirstPositions(rows, key);
    ScanOrder(rows, key);
    forall a, b | 0 <= a < b < |at|
      ensures Overtakes(rows, key, firsts[a], firsts[b]) <==> at[b] < at[a]
    {
      assert HoldsAt(rows, key, a, at[a]) && HoldsAt(rows, key, b, at[b]);
      OvertakenMeans(rows, key, firsts[a], firsts[b], at[a], at[b]);
    }
    if forall i, j :: !Overtakes(rows, key, i, j) {
      NoneOvertakes(rows, key, at);
    } else {
      var i, j :| Overtakes(rows, key, i, j);
      SomeOvertakes(rows, key, at, i, j);
    }
  }

  lemma {:induction false} NoneOvertakes(rows: seq<Row>, key: string, at: seq<nat>)
    requires DictAt(rows, key, at) && forall i | 0 <= i < |rows| && IsLast(rows, key, i) :: i in at
    requires forall a, b | 0 <= a < b < |at| :: at[a] <= at[b]
    ensures KeepLast(rows, key) == ValuesOf(Scan(rows, key))
  {
    var lasts := LastPositions(rows, key, 0);
    KeepLastIsTheLastOccurrences(rows, key, 0);
    assert rows[0..] == rows;
    forall a, b | 0 <= a < b < |at|
      ensures at[a] < at[b]
    {
      assert HoldsAt(rows, key, a, at[a]) && HoldsAt(rows, key, b, at[b]);
    }
    assert forall k | 0 <= k < |at| :: HoldsAt(rows, key, k, at[k]);
    IncreasingIsUnique(at, lasts);
  }

  lemma {:induction false} SomeOvertakes(rows: seq<Row>, key: string, at: seq<nat>, i: nat, j: nat)
    requires DictAt(rows, key, at) && Overtakes(rows, key, i, j)
    ensures KeepLast(rows, key) != ValuesOf(Scan(rows, key))
  {
    var a := PlaceOf(rows, key, i);
    var b := PlaceOf(rows, key, j);
    var lasts := LastPositions(rows, key, 0);
    KeepLastIsTheLastOccurrences(rows, key, 0);
    assert rows[0..] == rows;
    assert a < b by {
      FirstPlaces(rows, key, i, j, a, b);
    }
    assert HoldsAt(rows, key, a, at[a]) && HoldsAt(rows, key, b, at[b]);
    OvertakenMeans(rows, key, i, j, at[a], at[b]);
    if KeepLast(rows, key) == ValuesOf(Scan(rows, key)) {
      assert false;
    }
  }

  lemma {:induction false} FirstPlaces(rows: seq<Row>, key: string, i: nat, j: nat, a: nat, b: nat)
    requires i < j < |rows| && IsFirst(rows, key, i) && IsFirst(rows, key, j)
    requires a < |Scan(rows, key).order| && Scan(rows, key).order[a] == KeyOf(rows[i], key)
    requires b < |Scan(rows, key).order| && Scan(rows, key).order[b] == KeyOf(rows[j], key)
    ensures a < b
  {
    ScanOrder(rows, key);
    var firsts := FirstPositions(rows, key);
    assert IsFirst(rows, key, firsts[a]) && IsFirst(rows, key, firsts[b]);
    assert firsts[a] == i && firsts[b] == j;
  }

  /** The smallest feed on which they differ: the whole-feed result puts the key that comes back
      last, the dictionary puts it first. */
  lemma {:induction false} TheOrdersDiffer(a: Row, b: Row, key: string)
    requires KeyOf(a, key) != KeyOf(b, key)
    ensures KeepLast([a, b, a], key) == [b, a]
    ensures ValuesOf(Scan([a, b, a], key)) == [a, b]
  {
    assert [a, b, a][1..] == [b, a] && [b, a][1..] == [a] && [a][1..] == [];
    assert a in [b, a];
    assert KeepLast([a], key) == [a];
    assert KeepLast([b, a], key) == [b, a];
    DictOfThree(a, b, key);
  }

  lemma {:induction false} DictOfThree(a: Row, b: Row, key: string)
    requires KeyOf(a, key) != KeyOf(b, key)
    ensures ValuesOf(Scan([a, b, a], key)) == [a, b]
  {
    var x, y := KeyOf(a, key), KeyOf(b, key);
    DictOfTwo(a, b, key);
    ScanAppend([a, b], a, key);
    assert [a, b] + [a] == [a, b, a];
    assert Scan([a, b, a], key) == Assign(Dict([x, y], map[x := a, y := b]), x, a);
  }

  lemma {:induction false} DictOfTwo(a: Row, b: Row, key: string)
    requires KeyOf(a, key) != KeyOf(b, key)
    ensures Scan([a, b], key) == Dict([KeyOf(a, key), KeyOf(b, key)], map[KeyOf(a, key) := a, KeyOf(b, key) := b])
  {
    ScanAppend([], a, key);
    assert [] + [a] == [a];
    assert Scan([a], key) == Dict([KeyOf(a, key)], map[KeyOf(a, key) := a]);
    ScanAppend([a], b, key);
    assert [a] + [b] == [a, b];
  }

  lemma {:induction false} ScanAppend(rows: seq<Row>, last: Row, key: string)
    ensures Scan(rows + [last], key) == Assign(Scan(rows, key), KeyOf(last, key), last)
  {
    assert (rows + [last])[..|rows|] == rows;
  }
}
