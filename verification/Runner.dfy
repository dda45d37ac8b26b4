/** A sync run from configuration to exit code. */
module Runner {
  import opened Wrappers
  import opened Frames
  import opened Dedupe
  import opened Destination
  import opened Load
  import opened SyncMachine
  import opened SyncOutcome
  import opened SyncFates
  import SyncLoop
  import Breaker
  import ODataKey

  /** What can stop a run before it reports: each is caught, and none is told apart by the exit
      code. */
  datatype Failure =
    | Configuration | Authentication | SourceMissing | BadRecords(error: ValidationError) | Unexpected

  /** What the hooks of one run come back with, and how the runner was constructed. */
  datatype Setup = Setup(
    settings: Result<(), Failure>,
    client: Result<(), Failure>,
    token: Result<nat, Failure>,
    source: Result<Source, Failure>,
    dedupeKey: string,
    requiredColumns: seq<string>,
    payload: Row -> Fields,
    endpoint: ODataKey.Endpoint,
    maxWorkers: int,
    failureThreshold: int,
    writeWindowSize: int)

  const CORE: seq<string> := ["created", "updated", "failed"]

  /** Every hook before the write loop succeeds and the feed is accepted. */
  predicate Ready(setup: Setup) {
    && setup.settings.Ok? && setup.client.Ok? && setup.token.Ok? && setup.source.Ok?
    && Acceptable(setup.source.value, setup.dedupeKey, setup.requiredColumns)
  }

  /** The requests a clean run makes: one for each key of the feed, from the last row seen. */
  function Batch(setup: Setup): seq<Item>
    requires setup.source.Ok?
  {
    ItemsOf(KeepLast(FeedRows(setup.source.value), setup.dedupeKey), setup.dedupeKey, setup.payload)
  }

  function Total(counts: seq<nat>): nat {
    if counts == [] then 0 else Total(counts[..|counts| - 1]) + counts[|counts| - 1]
  }

  lemma {:induction false} TotalAppend(counts: seq<nat>, count: nat)
    ensures Total(counts + [count]) == Total(counts) + count
  {
    assert (counts + [count])[..|counts|] == counts;
  }

  /** The `load_records` hook, with the source's own failures. */
  method Records(setup: Setup) returns (r: Result<Frame, Failure>)
    requires setup.settings.Ok? && setup.client.Ok? && setup.token.Ok?
    ensures r.Ok? <==> Ready(setup)
    ensures setup.source.Err? ==> r == Err(setup.source.error)
    ensures r.Err? && setup.source.Ok? ==>
              && r.error.BadRecords?
              && RejectedFor(setup.source.value, setup.dedupeKey, setup.requiredColumns, r.error.error)
    ensures r.Ok? ==> Writable(setup.source.value, setup.dedupeKey, r.value.rows)
  {
    match setup.source
    case Err(e) => r := Err(e);
    case Ok(source) =>
      var loaded := LoadRecords(source, setup.dedupeKey, setup.requiredColumns);
      r := match loaded
        case Ok(frame) => Ok(frame)
        case Err(e) => Err(BadRecords(e));
  }

  /** The sum of some of the counts. */
  ghost function SumOver(counts: map<string, nat>, keys: set<string>): nat
    requires keys <= counts.Keys
  {
    if keys == {} then 0
    else
      var key :| key in keys;
      counts[key] + SumOver(counts, keys - {key})
  }

  lemma {:induction false} SumOverAny(counts: map<string, nat>, keys: set<string>, key: string)
    requires keys <= counts.Keys && key in keys
    ensures SumOver(counts, keys) == counts[key] + SumOver(counts, keys - {key})
  {
    var first :| first in keys && SumOver(counts, keys) == counts[first] + SumOver(counts, keys - {first});
    if first != key {
      SumOverAny(counts, keys - {first}, key);
      SumOverAny(counts, keys - {key}, first);
      assert keys - {first} - {key} == keys - {key} - {first};
    }
  }

  lemma {:induction false} SumOfCore(counts: map<string, nat>)
    requires forall key | key in CORE :: key in counts
    ensures SumOver(counts, counts.Keys)
         == counts["created"] + counts["updated"] + counts["failed"] + SumOver(counts, Further(counts))
    ensures |counts| == 3 + |Further(counts)|
  {
    SumOverAny(counts, counts.Keys, "created");
    SumOverAny(counts, counts.Keys - {"created"}, "updated");
    SumOverAny(counts, counts.Keys - {"created"} - {"updated"}, "failed");
    assert counts.Keys - {"created"} - {"updated"} - {"failed"} == Further(counts);
  }

  /** The keys a result has beyond the three that every result has. */
  function Further(counts: map<string, nat>): set<string> {
    set key | key in counts && key !in CORE
  }

  /** `for key, value in extra_counts.items()`: adds each further count to the numbers. */
  method AddCounts(result: map<string, nat>, keys: set<string>, numbers: seq<nat>) returns (all: seq<nat>)
    requires keys <= result.Keys
    ensures numbers <= all && |all| == |numbers| + |keys|
    ensures Total(all) == Total(numbers) + SumOver(result, keys)
  {
    all := numbers;
    var rest := keys;
    while rest != {}
      invariant rest <= keys && numbers <= all && |all| + |rest| == |numbers| + |keys|
      invariant Total(all) + SumOver(result, rest) == Total(numbers) + SumOver(result, keys)
      decreases |rest|
    {
      var key :| key in rest;
      SumOverAny(result, rest, key);
      TotalAppend(all, result[key]);
      all := all + [result[key]];
      rest := rest - {key};
    }
  }

  /** The numbers of the summary: created, updated, failed, every further count the result has,
      whatever its name, and the number of records. */
  method Summarise(result: map<string, nat>, records: nat) returns (summary: seq<nat>)
    requires forall key | key in CORE :: key in result
    ensures |summary| == |result| + 1 >= 4
    ensures summary[..3] == [result["created"], result["updated"], result["failed"]]
    ensures Total(summary[..|result|]) == SumOver(result, result.Keys)
    ensures summary[|result|] == records
  {
    var core := [result["created"], result["updated"], result["failed"]];
    TotalOfThree(core);
    SumOfCore(result);
    var counts := AddCounts(result, Further(result), core);
    summary := counts + [records];
    assert summary[..|result|] == counts && summary[..3] == counts[..3] == core;
  }

  lemma {:induction false} TotalOfThree(counts: seq<nat>)
    requires |counts| == 3
    ensures Total(counts) == counts[0] + counts[1] + counts[2]
  {
    TotalAppend([], counts[0]);
    TotalAppend([counts[0]], counts[1]);
    TotalAppend([counts[0], counts[1]], counts[2]);
    assert counts == [] + [counts[0]] + [counts[1]] + [counts[2]];
  }

  /** The result under the names `sync_records` gives its counts. */
  function Named(result: map<Outcome, nat>): (counts: map<string, nat>)
    requires result.Keys == {Created, Updated, Failed, Skipped}
    ensures counts.Keys == {"created", "updated", "failed", "skipped"}
  {
    map["created" := result[Created], "updated" := result[Updated],
        "failed" := result[Failed], "skipped" := result[Skipped]]
  }

  /** With the counts of `sync_records` there is one further number. */
  lemma {:induction false} FourCounts(counts: map<string, nat>, numbers: seq<nat>)
    requires counts.Keys == {"created", "updated", "failed", "skipped"} && |numbers| == |counts|
    requires numbers[..3] == [counts["created"], counts["updated"], counts["failed"]]
    requires Total(numbers) == SumOver(counts, counts.Keys)
    ensures numbers == [counts["created"], counts["updated"], counts["failed"], counts["skipped"]]
    ensures Total(numbers) == numbers[0] + numbers[1] + numbers[2] + numbers[3]
  {
    SumOfCore(counts);
    assert Further(counts) == {"skipped"};
    SumOverAny(counts, {"skipped"}, "skipped");
    assert {"skipped"} - {"skipped"} == {};
    TotalOfThree(numbers[..3]);
    TotalAppend(numbers[..3], numbers[3]);
    assert numbers == numbers[..3] + [numbers[3]];
  }

  /** The summary of what `sync_records` returned. */
  method SummaryOf(result: map<Outcome, nat>, records: nat) returns (summary: seq<nat>)
    requires result.Keys == {Created, Updated, Failed, Skipped}
    ensures summary == [result[Created], result[Updated], result[Failed], result[Skipped], records]
    ensures Total(summary[..4]) == result[Created] + result[Updated] + result[Failed] + result[Skipped]
  {
    var counts := Named(result);
    summary := Summarise(counts, records);
    FourCounts(counts, summary[..|counts|]);
    assert |counts| == 4 by {
      SumOfCore(counts);
      assert Further(counts) == {"skipped"};
    }
    assert summary == summary[..4] + [records];
  }

  /** What a run that may have left requests on the wire, and that found some there, does to the
      destination: with exit code 0 exactly what one clean pass over the deduplicated feed does,
      with any other at most part of that, and nothing if it stopped before the write loop. */
  ghost predicate Leaves(setup: Setup, before: Store, code: int, after: Store) {
    && (!Ready(setup) ==> code != 0 && after == before)
    && (Ready(setup) && ODataKey.PlainNames(setup.endpoint) ==>
          && PartOf(Batch(setup), before, after)
          && (code == 0 ==> after == ApplyAll(before, Batch(setup))))
  }

  /** The rows that `late` requests are for. */
  function RowsFor(items: seq<Item>, late: set<string>): set<nat> {
    set i: nat | i < |items| && items[i].key in late
  }

  function FatesFor(items: seq<Item>, world: string -> Fate): seq<Fate> {
    seq(|items|, i requires 0 <= i < |items| => world(items[i].key))
  }

  /** The write loop was a run of the machine, in which each key's request met its fate; after a
      return the summary has that run's counts and the number of records, and the exit code tells
      whether any failed; after an exception there is no summary. */
  ghost predicate Reports(
    cfg: Config, before: Store, late: set<string>, world: string -> Fate, code: int, after: Store,
    summary: seq<nat>)
  {
    exists carried: set<nat>, fates: seq<Fate>, steps, s ::
      && (forall i: nat :: i in carried <==> i < |cfg.items| && cfg.items[i].key in late)
      && |fates| == |cfg.items| && (forall i | 0 <= i < |fates| :: fates[i] == world(cfg.items[i].key))
      && Runs(cfg, before, carried, steps, s) && Follows(fates, s) && s.dest == after
      && if s.main.Returned? then
           && summary == [Count(s, Created), Count(s, Updated), Count(s, Failed), Count(s, Skipped), |cfg.items|]
           && (code == 1 <==> Count(s, Failed) > 0)
         else s.main.Aborted? && summary == [] && code == 1
  }

  /** The numbers of a summary account for every one of `records`: they add up to it, a record is
      skipped only after enough have failed, and the exit code is 0 exactly if all were confirmed. */
  predicate Accounted(threshold: int, records: nat, code: int, summary: seq<nat>) {
    && |summary| == 5
    && summary[4] == records
    && summary[0] + summary[1] + summary[2] + summary[3] == Total(summary[..4]) == records
    && (summary[3] > 0 ==> summary[2] >= Breaker.Limit(threshold))
    && (code == 1 <==> summary[2] > 0)
    && (code == 0 <==> summary[0] + summary[1] == records)
  }

  /** The feed's keys. */
  function Keys(setup: Setup): set<Cell>
    requires setup.source.Ok?
  {
    KeysIn(FeedRows(setup.source.value), setup.dedupeKey)
  }

  /** `run`. Requests that earlier runs of the same feed left on the wire, for the keys in `late`,
      may take effect while this one is under way; `world` says what becomes of this run's request
      for each key. Exit code 0 means that every record was confirmed and every row delivered, and
      that nothing else was; once the feed is loaded and the pool can start, it comes exactly when
      every request is answered. */
  method Run(setup: Setup, dest: Store, late: set<string>, world: string -> Fate)
    returns (code: int, after: Store, summary: seq<nat>)
    requires Ready(setup) ==> forall k | k in late :: Text(k) in Keys(setup)
    ensures code == 0 || code == 1
    ensures setup.settings.Err? || setup.client.Err? || setup.token.Err? || setup.source.Err? ==> !Ready(setup)
    ensures !Ready(setup) || setup.maxWorkers < 1 ==> code == 1 && after == dest && summary == []
    ensures Leaves(setup, dest, code, after)
    ensures Ready(setup) && ODataKey.PlainNames(setup.endpoint) ==> DeliveredPart(setup, dest, after)
    ensures code == 0 && ODataKey.PlainNames(setup.endpoint) ==> DeliveredAll(setup, dest, after)
    ensures Ready(setup) && setup.maxWorkers >= 1 ==>
              && (code == 0 <==> forall k | Text(k) in Keys(setup) :: world(k).Replies?)
              && ((forall k | Text(k) in Keys(setup) :: !world(k).Breaks?) ==> summary != [])
    ensures Ready(setup) && setup.maxWorkers >= 1 ==>
              exists rows ::
                && Writable(setup.source.value, setup.dedupeKey, rows)
                && Reports(
                     Config(
                       setup.endpoint, ItemsOf(rows, setup.dedupeKey, setup.payload),
                       setup.maxWorkers, setup.failureThreshold, setup.writeWindowSize),
                     dest, late, world, code, after, summary)
    ensures code == 0 ==> summary != []
    ensures summary != [] ==> Ready(setup) && Accounted(setup.failureThreshold, |Keys(setup)|, code, summary)
    ensures summary != [] && ODataKey.PlainNames(setup.endpoint)
            && (forall k | Text(k) in Keys(setup) :: k in dest) ==>
              summary[0] == 0
  {
    if setup.settings.Err? || setup.client.Err? || setup.token.Err? {
      return 1, dest, [];
    }
    var loaded := Records(setup);
    if loaded.Err? {
      return 1, dest, [];
    }
    var items := ItemsOf(loaded.value.rows, setup.dedupeKey, setup.payload);
    LoadedKeysAreDistinct(loaded.value.rows, setup.dedupeKey, setup.payload);
    code, after, summary := Write(
      Config(setup.endpoint, items, setup.maxWorkers, setup.failureThreshold, setup.writeWindowSize),
      dest, late, world);
    WorldOverKeys(setup, loaded.value.rows, dest, world);
    WrittenMeansDelivered(setup, loaded.value.rows, dest, code, after);
  }

  lemma {:induction false} WrittenMeansDelivered(setup: Setup, rows: seq<Row>, dest: Store, code: int, after: Store)
    requires Ready(setup) && Writable(setup.source.value, setup.dedupeKey, rows)
    requires code == 0 && ODataKey.PlainNames(setup.endpoint) ==>
               after == ApplyAll(dest, ItemsOf(rows, setup.dedupeKey, setup.payload))
    requires ODataKey.PlainNames(setup.endpoint) ==>
               PartOf(ItemsOf(rows, setup.dedupeKey, setup.payload), dest, after)
    ensures Leaves(setup, dest, code, after)
    ensures ODataKey.PlainNames(setup.endpoint) ==> DeliveredPart(setup, dest, after)
    ensures code == 0 && ODataKey.PlainNames(setup.endpoint) ==> DeliveredAll(setup, dest, after)
  {
    BatchIsClean(setup, rows, dest);
    if ODataKey.PlainNames(setup.endpoint) {
      PartDelivers(setup, dest, after);
      CleanPassDelivers(setup, dest);
    }
  }

  /** What holds of every key of the feed holds of every request, and the other way round. */
  lemma WorldOverKeys(setup: Setup, rows: seq<Row>, dest: Store, world: string -> Fate)
    requires Ready(setup) && Writable(setup.source.value, setup.dedupeKey, rows)
    ensures |rows| == |Keys(setup)|
    ensures var items := ItemsOf(rows, setup.dedupeKey, setup.payload);
            && (AllReply(FatesFor(items, world)) <==> forall k | Text(k) in Keys(setup) :: world(k).Replies?)
            && (NoneBreaks(FatesFor(items, world)) <==> forall k | Text(k) in Keys(setup) :: !world(k).Breaks?)
            && ((forall k | Text(k) in Keys(setup) :: k in dest) ==> forall it | it in items :: it.key in dest)
  {
    ItemKeys(setup, rows);
    var items := ItemsOf(rows, setup.dedupeKey, setup.payload);
    RepliesToKeys(items, Keys(setup), world);
    BreaksOfKeys(items, Keys(setup), world);
  }

  ghost predicate Cover(items: seq<Item>, keys: set<Cell>) {
    && (forall i | 0 <= i < |items| :: Text(items[i].key) in keys)
    && (forall k | Text(k) in keys :: exists i :: 0 <= i < |items| && items[i].key == k)
  }

  lemma RepliesToKeys(items: seq<Item>, keys: set<Cell>, world: string -> Fate)
    requires Cover(items, keys)
    ensures AllReply(FatesFor(items, world)) <==> forall k | Text(k) in keys :: world(k).Replies?
  {
    var fates := FatesFor(items, world);
    if AllReply(fates) {
      forall k | Text(k) in keys
        ensures world(k).Replies?
      {
        var i :| 0 <= i < |items| && items[i].key == k;
        assert fates[i] == world(k);
      }
    }
  }

  lemma BreaksOfKeys(items: seq<Item>, keys: set<Cell>, world: string -> Fate)
    requires Cover(items, keys)
    ensures NoneBreaks(FatesFor(items, world)) <==> forall k | Text(k) in keys :: !world(k).Breaks?
  {
    var fates := FatesFor(items, world);
    if NoneBreaks(fates) {
      forall k | Text(k) in keys
        ensures !world(k).Breaks?
      {
        var i :| 0 <= i < |items| && items[i].key == k;
        assert fates[i] == world(k);
      }
    }
  }

  lemma PerformedReports(
    cfg: Config, before: Store, late: set<string>, world: string -> Fate, r: Result<map<Outcome, nat>, ()>,
    code: int, after: Store, summary: seq<nat>)
    requires SyncLoop.Performed(cfg, before, RowsFor(cfg.items, late), FatesFor(cfg.items, world), r, after)
    requires r.Ok? ==> r.value.Keys == {Created, Updated, Failed, Skipped}
    requires match r
             case Ok(counts) =>
               && summary == [counts[Created], counts[Updated], counts[Failed], counts[Skipped], |cfg.items|]
               && code == if counts[Failed] > 0 then 1 else 0
             case Err(_) => summary == [] && code == 1
    ensures Reports(cfg, before, late, world, code, after, summary)
  {
    var carried, fates := RowsFor(cfg.items, late), FatesFor(cfg.items, world);
    var steps, s :|
      && Runs(cfg, before, carried, steps, s) && Follows(fates, s) && s.dest == after
      && match r
         case Ok(counts) => s.main.Returned? && SyncLoop.Tallied(counts, s)
         case Err(_) => s.main.Aborted?;
    assert forall i: nat :: i in carried <==> i < |cfg.items| && cfg.items[i].key in late;
  }

  /** The part of `run` from `sync_records` on. */
  method Write(cfg: Config, dest: Store, late: set<string>, world: string -> Fate)
    returns (code: int, after: Store, summary: seq<nat>)
    requires DistinctKeys(cfg.items)
    ensures code == 0 || code == 1
    ensures code == 0 && ODataKey.PlainNames(cfg.endpoint) ==> after == ApplyAll(dest, cfg.items)
    ensures ODataKey.PlainNames(cfg.endpoint) ==> PartOf(cfg.items, dest, after)
    ensures cfg.workers < 1 ==> code == 1 && after == dest && summary == []
    ensures cfg.workers >= 1 ==>
              && Reports(cfg, dest, late, world, code, after, summary)
              && (code == 0 <==> AllReply(FatesFor(cfg.items, world)))
              && (NoneBreaks(FatesFor(cfg.items, world)) ==> summary != [])
    ensures code == 0 ==> summary != []
    ensures summary != [] ==> Accounted(cfg.threshold, |cfg.items|, code, summary)
    ensures summary != [] && ODataKey.PlainNames(cfg.endpoint) && (forall it | it in cfg.items :: it.key in dest) ==>
              summary[0] == 0
  {
    var result;
    result, after := SyncLoop.SyncRecords(cfg, dest, RowsFor(cfg.items, late), FatesFor(cfg.items, world));
    if result.Err? {
      code, summary := 1, [];
    } else {
      summary := SummaryOf(result.value, |cfg.items|);
      code := if result.value[Failed] > 0 then 1 else 0;
    }
    if cfg.workers >= 1 {
      PerformedReports(cfg, dest, late, world, result, code, after, summary);
    }
  }

  /** The requests are for the feed's keys, and for nothing else. */
  lemma ItemKeys(setup: Setup, rows: seq<Row>)
    requires Ready(setup) && Writable(setup.source.value, setup.dedupeKey, rows)
    ensures Cover(ItemsOf(rows, setup.dedupeKey, setup.payload), Keys(setup))
    ensures |rows| == |Keys(setup)|
  {
    var key := setup.dedupeKey;
    var items := ItemsOf(rows, key, setup.payload);
    DistinctSize(rows, key);
    forall i | 0 <= i < |items|
      ensures Text(items[i].key) in Keys(setup)
    {
      assert rows[i] in rows;
      assert KeyOf(rows[i], key) in KeysIn(rows, key);
    }
    forall k | Text(k) in Keys(setup)
      ensures exists i :: 0 <= i < |items| && items[i].key == k
    {
      var row :| row in rows && KeyOf(row, key) == Text(k);
      var i :| 0 <= i < |rows| && rows[i] == row;
      assert items[i].key == k;
    }
  }

  /** The rows that were loaded, by either path, make the same clean pass as the batch. */
  lemma {:induction false} BatchIsClean(setup: Setup, rows: seq<Row>, dest: Store)
    requires Ready(setup) && Writable(setup.source.value, setup.dedupeKey, rows)
    ensures DistinctKeys(Batch(setup))
    ensures |rows| == |Batch(setup)|
    ensures Members(ItemsOf(rows, setup.dedupeKey, setup.payload)) == Members(Batch(setup))
    ensures ApplyAll(dest, ItemsOf(rows, setup.dedupeKey, setup.payload)) == ApplyAll(dest, Batch(setup))
  {
    var source, key := setup.source.value, setup.dedupeKey;
    var whole := KeepLast(FeedRows(source), key);
    KeepLastSeen(FeedRows(source), key);
    RowsHaveRealKeys(source, key, setup.requiredColumns, whole);
    BatchKeysAreDistinct(setup);
    LastSeenIsUniqueUpToOrder(FeedRows(source), key, rows, whole);
    assert |rows| == |multiset(rows)| == |whole|;
    BothPathsLeaveTheSame(dest, source, source, rows, whole, key, setup.payload);
  }

  lemma BatchKeysAreDistinct(setup: Setup)
    requires Ready(setup)
    ensures DistinctKeys(Batch(setup))
  {
    var feed, key := FeedRows(setup.source.value), setup.dedupeKey;
    KeepLastSeen(feed, key);
    RowsHaveRealKeys(setup.source.value, key, setup.requiredColumns, KeepLast(feed, key));
    LoadedKeysAreDistinct(KeepLast(feed, key), key, setup.payload);
  }

  /** The row's fields are in the destination under the text of its key, over what was there before. */
  ghost predicate DeliveredRow(setup: Setup, row: Row, before: Store, after: Store) {
    && setup.dedupeKey in row && row[setup.dedupeKey].Text?
    && HoldsItem(before, after, Item(row[setup.dedupeKey].text, setup.payload(row)))
  }

  /** No key outside the feed moved. */
  ghost predicate NothingElse(setup: Setup, before: Store, after: Store)
    requires setup.source.Ok?
  {
    forall k: string | Text(k) !in Keys(setup) :: (k in after <==> k in before) && Held(after, k) == Held(before, k)
  }

  /** Every row of the feed that no later row supersedes was delivered, and nothing else was. */
  ghost predicate DeliveredAll(setup: Setup, before: Store, after: Store)
    requires setup.source.Ok?
  {
    var feed := FeedRows(setup.source.value);
    && (forall i | 0 <= i < |feed| && IsLast(feed, setup.dedupeKey, i) :: DeliveredRow(setup, feed[i], before, after))
    && NothingElse(setup, before, after)
  }

  /** Every such row was delivered, or its record is as it was. */
  ghost predicate DeliveredPart(setup: Setup, before: Store, after: Store)
    requires setup.source.Ok?
  {
    var feed := FeedRows(setup.source.value);
    && (forall i | 0 <= i < |feed| && IsLast(feed, setup.dedupeKey, i) ::
          var key := KeyOf(feed[i], setup.dedupeKey);
          && key.Text?
          && (|| DeliveredRow(setup, feed[i], before, after)
              || ((key.text in after <==> key.text in before) && Held(after, key.text) == Held(before, key.text))))
    && NothingElse(setup, before, after)
  }

  /** The request for a row that no later one supersedes is in the batch, with its payload. */
  lemma {:induction false} RowIsInBatch(setup: Setup, i: nat)
    requires Ready(setup) && i < |FeedRows(setup.source.value)|
    requires IsLast(FeedRows(setup.source.value), setup.dedupeKey, i)
    ensures var row := FeedRows(setup.source.value)[i];
            && setup.dedupeKey in row && KeyOf(row, setup.dedupeKey).Text?
            && Item(KeyOf(row, setup.dedupeKey).text, setup.payload(row)) in Batch(setup)
  {
    var feed, key := FeedRows(setup.source.value), setup.dedupeKey;
    var rows := KeepLast(feed, key);
    KeepLastSeen(feed, key);
    RowsHaveRealKeys(setup.source.value, key, setup.requiredColumns, rows);
    AcceptableMeans(setup.source.value, key, setup.requiredColumns);
    assert feed[i] in feed;
    LastSeenHas(feed, key, rows, i);
    var k :| 0 <= k < |rows| && rows[k] == feed[i];
    assert Batch(setup)[k] == Item(KeyOf(feed[i], key).text, setup.payload(feed[i]));
  }

  /** Only the feed's keys are in the batch. */
  lemma {:induction false} BatchKeys(setup: Setup)
    requires Ready(setup)
    ensures forall it | it in Batch(setup) :: Text(it.key) in Keys(setup)
  {
    var feed, key := FeedRows(setup.source.value), setup.dedupeKey;
    KeepLastSeen(feed, key);
    RowsHaveRealKeys(setup.source.value, key, setup.requiredColumns, KeepLast(feed, key));
    ItemKeys(setup, KeepLast(feed, key));
  }

  lemma {:induction false} CleanPassDelivers(setup: Setup, dest: Store)
    requires Ready(setup)
    ensures DeliveredAll(setup, dest, ApplyAll(dest, Batch(setup)))
  {
    var feed, after := FeedRows(setup.source.value), ApplyAll(dest, Batch(setup));
    BatchKeysAreDistinct(setup);
    BatchKeys(setup);
    ApplyAllHolds(dest, Batch(setup));
    forall i | 0 <= i < |feed| && IsLast(feed, setup.dedupeKey, i)
      ensures DeliveredRow(setup, feed[i], dest, after)
    {
      RowIsInBatch(setup, i);
    }
  }

  lemma {:induction false} PartDelivers(setup: Setup, before: Store, after: Store)
    requires Ready(setup) && PartOf(Batch(setup), before, after)
    ensures DeliveredPart(setup, before, after)
  {
    var feed, batch := FeedRows(setup.source.value), Batch(setup);
    var part: set<Item> :| part <= Members(batch) && after == Overlay(before, part);
    BatchKeysAreDistinct(setup);
    BatchKeys(setup);
    DistinctMeansOnePerKey(batch, {});
    forall i | 0 <= i < |feed| && IsLast(feed, setup.dedupeKey, i)
      ensures var key := KeyOf(feed[i], setup.dedupeKey);
              && key.Text?
              && (|| DeliveredRow(setup, feed[i], before, after)
                  || ((key.text in after <==> key.text in before) && Held(after, key.text) == Held(before, key.text)))
    {
      RowIsInBatch(setup, i);
      PartHoldsOrNot(batch, part, before, Item(KeyOf(feed[i], setup.dedupeKey).text, setup.payload(feed[i])));
    }
    forall k: string | Text(k) !in Keys(setup)
      ensures (k in after <==> k in before) && Held(after, k) == Held(before, k)
    {
      KeyNotLaid(before, part, k);
    }
  }

  lemma PartHoldsOrNot(batch: seq<Item>, part: set<Item>, before: Store, it: Item)
    requires OnePerKey(Members(batch)) && part <= Members(batch) && it in batch
    ensures var after := Overlay(before, part);
            || HoldsItem(before, after, it)
            || ((it.key in after <==> it.key in before) && Held(after, it.key) == Held(before, it.key))
  {
    if it in part {
      OverlayHoldsItem(before, part, it);
    } else {
      KeyNotLaid(before, part, it.key);
    }
  }

  // ---- Run after run ----

  /** One run of a series: how it was set up, the destination it found and the one it left. */
  datatype Visit = Visit(setup: Setup, before: Store, code: int, after: Store)

  /** Runs of one batch, one after the other. Settings, credentials, pool and thresholds may differ
      and any run may stop early; between two runs late requests of the batch may take effect. */
  ghost predicate Series(batch: seq<Item>, origin: Store, visits: seq<Visit>) {
    visits == []
    || var last, init := visits[|visits| - 1], visits[..|visits| - 1];
       && Leaves(last.setup, last.before, last.code, last.after)
       && ODataKey.PlainNames(last.setup.endpoint)
       && (Ready(last.setup) ==> Batch(last.setup) == batch)
       && Series(batch, origin, init)
       && PartOf(batch, if init == [] then origin else init[|init| - 1].after, last.before)
  }

  lemma PartAgain(batch: seq<Item>, a: Store, b: Store, c: Store)
    requires DistinctKeys(batch) && PartOf(batch, a, b) && PartOf(batch, b, c)
    ensures PartOf(batch, a, c)
  {
    var first: set<Item> :| first <= Members(batch) && b == Overlay(a, first);
    var second: set<Item> :| second <= Members(batch) && c == Overlay(b, second);
    DistinctMeansOnePerKey(batch, {});
    OverlayTwice(a, first, second);
    assert first + second <= Members(batch);
  }

  /** After any such runs part of the batch has been laid over the original. */
  lemma {:induction false} SeriesLeavesPart(batch: seq<Item>, origin: Store, visits: seq<Visit>)
    requires DistinctKeys(batch) && Series(batch, origin, visits) && visits != []
    ensures PartOf(batch, origin, visits[|visits| - 1].before)
    ensures PartOf(batch, origin, visits[|visits| - 1].after)
  {
    var last, init := visits[|visits| - 1], visits[..|visits| - 1];
    if init != [] {
      SeriesLeavesPart(batch, origin, init);
      PartAgain(batch, origin, init[|init| - 1].after, last.before);
    }
    if Ready(last.setup) {
      PartAgain(batch, origin, last.before, last.after);
    }
  }

  /** A series whose last run exits 0, and the destination `later`, when any late requests of the
      batch have taken effect after it. */
  ghost predicate Succeeds(batch: seq<Item>, origin: Store, visits: seq<Visit>, later: Store) {
    && visits != [] && Series(batch, origin, visits)
    && visits[|visits| - 1].code == 0 && PartOf(batch, visits[|visits| - 1].after, later)
  }

  /** Whatever the earlier runs did and however they ended, a run that exits 0 leaves exactly one
      clean pass over the original destination, and late requests change nothing after it. */
  lemma {:induction false} ExitZeroConverges(batch: seq<Item>, origin: Store, visits: seq<Visit>, later: Store)
    requires Succeeds(batch, origin, visits, later)
    ensures visits[|visits| - 1].after == ApplyAll(origin, batch) == later
    ensures Ready(visits[|visits| - 1].setup) && DeliveredAll(visits[|visits| - 1].setup, origin, later)
  {
    var last := visits[|visits| - 1];
    BatchKeysAreDistinct(last.setup);
    SeriesLeavesPart(batch, origin, visits);
    CleanPassAbsorbsPart(batch, origin, last.before);
    PassAbsorbsLater(batch, origin, later);
    CleanPassDelivers(last.setup, origin);
  }

  lemma {:induction false} PassAbsorbsLater(batch: seq<Item>, origin: Store, later: Store)
    requires DistinctKeys(batch) && PartOf(batch, ApplyAll(origin, batch), later)
    ensures later == ApplyAll(origin, batch)
  {
    var part: set<Item> :| part <= Members(batch) && later == Overlay(ApplyAll(origin, batch), part);
    ApplyAllIsOverlay(origin, batch);
    DistinctMeansOnePerKey(batch, {});
    assert Members(batch) + part == Members(batch);
    OverlayTwice(origin, Members(batch), part);
  }
}
