/** Reading, validating and deduplicating a feed before anything is written. */
module Load {
  import opened Wrappers
  import opened Frames
  import opened Dedupe
  import opened Destination

  /** `RecordValidationError`, with what its message names. */
  datatype ValidationError = MissingColumns(names: seq<string>) | BlankKeys(column: string, count: nat)

  // ---- Validation ----

  /** The characters `str.strip` removes. */
  predicate IsSpace(c: char) {
    var x := c as int;
    || 0x09 <= x <= 0x0D || 0x1C <= x <= 0x20 || x == 0x85 || x == 0xA0 || x == 0x1680
    || 0x2000 <= x <= 0x200A || x == 0x2028 || x == 0x2029 || x == 0x202F || x == 0x205F || x == 0x3000
  }

  /** They are the 29 characters of Unicode that Python counts as white space. */
  lemma WhiteSpaceIs(c: char)
    ensures IsSpace(c) <==>
              || c in "\t\n\U{0B}\U{0C}\r\U{1C}\U{1D}\U{1E}\U{1F} \U{85}\U{A0}"
              || c in "\U{1680}\U{2028}\U{2029}\U{202F}\U{205F}\U{3000}"
              || c in "\U{2000}\U{2001}\U{2002}\U{2003}\U{2004}\U{2005}\U{2006}\U{2007}\U{2008}\U{2009}\U{200A}"
  {
  }

  function Strip(s: string): string {
    if s == "" then ""
    else if IsSpace(s[0]) then Strip(s[1..])
    else if IsSpace(s[|s| - 1]) then Strip(s[..|s| - 1])
    else s
  }

  /** A stripped value is empty exactly when there was nothing but white space in it. */
  lemma {:induction false} StripLeavesNothing(s: string)
    ensures Strip(s) == "" <==> forall i | 0 <= i < |s| :: IsSpace(s[i])
  {
    if s != "" {
      if IsSpace(s[0]) {
        StripLeavesNothing(s[1..]);
        assert forall i | 0 < i < |s| :: s[i] == s[1..][i - 1];
      } else if IsSpace(s[|s| - 1]) {
        StripLeavesNothing(s[..|s| - 1]);
        assert s[..|s| - 1][0] == s[0];
      }
    }
  }

  predicate IsBlank(c: Cell) {
    c.Null? || Strip(c.text) == ""
  }

  /** A real value: a text with something in it besides white space. */
  predicate HasText(c: Cell) {
    c.Text? && exists i | 0 <= i < |c.text| :: !IsSpace(c.text[i])
  }

  lemma BlankHasNoText(c: Cell)
    ensures IsBlank(c) <==> !HasText(c)
  {
    if c.Text? {
      StripLeavesNothing(c.text);
    }
  }

  function Missing(required: seq<string>, columns: seq<string>): seq<string> {
    if required == [] then []
    else (if required[0] in columns then [] else [required[0]]) + Missing(required[1..], columns)
  }

  function BlankCount(rows: seq<Row>, key: string): nat {
    if rows == [] then 0
    else BlankCount(rows[..|rows| - 1], key) + if IsBlank(KeyOf(rows[|rows| - 1], key)) then 1 else 0
  }

  /** The columns first, so that a missing key column is reported as that. */
  function Validate(frame: Frame, key: string, required: seq<string>): Result<Frame, ValidationError> {
    var missing := Missing([key] + required, frame.columns);
    if missing != [] then Err(MissingColumns(missing))
    else if BlankCount(frame.rows, key) > 0 then Err(BlankKeys(key, BlankCount(frame.rows, key)))
    else Ok(frame)
  }

  lemma {:induction false} MissingMeans(required: seq<string>, columns: seq<string>)
    ensures forall name :: name in Missing(required, columns) <==> name in required && name !in columns
  {
    if required != [] {
      MissingMeans(required[1..], columns);
      assert required == [required[0]] + required[1..];
    }
  }

  lemma {:induction false} BlankCountSplit(a: seq<Row>, b: seq<Row>, key: string)
    ensures BlankCount(a + b, key) == BlankCount(a, key) + BlankCount(b, key)
  {
    if b == [] {
      assert a + b == a;
    } else {
      assert (a + b)[..|a + b| - 1] == a + b[..|b| - 1];
      BlankCountSplit(a, b[..|b| - 1], key);
    }
  }

  lemma {:induction false} BlankCountMeans(rows: seq<Row>, key: string)
    ensures BlankCount(rows, key) == 0 <==> forall r | r in rows :: !IsBlank(KeyOf(r, key))
  {
    if rows != [] {
      BlankCountMeans(rows[..|rows| - 1], key);
      assert rows == rows[..|rows| - 1] + [rows[|rows| - 1]];
    }
  }

  /** The blank keys counted are those of the rows without a real one. */
  lemma {:induction false} BlankCountIsSize(rows: seq<Row>, key: string)
    ensures BlankCount(rows, key) == |set i | 0 <= i < |rows| && !HasText(KeyOf(rows[i], key))|
  {
    var blanks := set i | 0 <= i < |rows| && !HasText(KeyOf(rows[i], key));
    if rows == [] {
      assert blanks == {};
    } else {
      var last, init := |rows| - 1, rows[..|rows| - 1];
      var before := set i | 0 <= i < |init| && !HasText(KeyOf(init[i], key));
      BlankCountIsSize(init, key);
      BlankHasNoText(KeyOf(rows[last], key));
      assert blanks == before + if HasText(KeyOf(rows[last], key)) then {} else {last};
    }
  }

  /** A frame is accepted, unchanged, exactly when every required column is there and every row has
      a real key. Otherwise the error names every column that is missing, if any is; only if none
      is does it give the number of rows without a real key. */
  lemma ValidateMeans(frame: Frame, key: string, required: seq<string>)
    ensures Validate(frame, key, required).Ok? <==>
              && (forall name | name in [key] + required :: name in frame.columns)
              && (forall row: Row | row in frame.rows ::
                    && key in row && row[key].Text?
                    && exists i :: 0 <= i < |row[key].text| && !IsSpace(row[key].text[i]))
    ensures match Validate(frame, key, required)
            case Ok(valid) => valid == frame
            case Err(MissingColumns(names)) =>
              names != [] && forall name :: name in names <==> name in [key] + required && name !in frame.columns
            case Err(BlankKeys(column, count)) =>
              && (forall name | name in [key] + required :: name in frame.columns)
              && column == key
              && count == |set i | 0 <= i < |frame.rows| && !HasText(KeyOf(frame.rows[i], key))|
  {
    var missing := Missing([key] + required, frame.columns);
    MissingMeans([key] + required, frame.columns);
    BlankCountMeans(frame.rows, key);
    BlankCountIsSize(frame.rows, key);
    assert missing != [] ==> missing[0] in missing;
    forall row | row in frame.rows
      ensures IsBlank(KeyOf(row, key)) <==> !HasText(KeyOf(row, key))
    {
      BlankHasNoText(KeyOf(row, key));
    }
  }

  // ---- Chunks ----

  function RowsOf(chunks: seq<Frame>): seq<Row> {
    if chunks == [] then [] else RowsOf(chunks[..|chunks| - 1]) + chunks[|chunks| - 1].rows
  }

  predicate AllValid(chunks: seq<Frame>, key: string, required: seq<string>) {
    forall c | c in chunks :: Validate(c, key, required).Ok?
  }

  lemma {:induction false} BlankCountOfChunks(chunks: seq<Frame>, key: string)
    ensures BlankCount(RowsOf(chunks), key) == 0 <==> forall c | c in chunks :: BlankCount(c.rows, key) == 0
  {
    if chunks != [] {
      var init, last := chunks[..|chunks| - 1], chunks[|chunks| - 1];
      BlankCountOfChunks(init, key);
      BlankCountSplit(RowsOf(init), last.rows, key);
      assert chunks == init + [last];
    }
  }

  /** Validating chunk by chunk accepts exactly the feeds that validating the whole accepts, but
      for the feed of no chunks at all, which has no columns to check and is always accepted. */
  lemma {:induction false} ChunkedValidationAgrees(
    chunks: seq<Frame>, columns: seq<string>, key: string, required: seq<string>)
    requires forall c | c in chunks :: c.columns == columns
    ensures AllValid(chunks, key, required) <==>
              chunks == [] || Validate(Frame(columns, RowsOf(chunks)), key, required).Ok?
  {
    BlankCountOfChunks(chunks, key);
    if chunks != [] {
      assert chunks[0] in chunks;
    }
  }

  /** An iterator over the chunks of a feed; `read` counts those taken from the source. */
  class ChunkStream {
    const chunks: seq<Frame>
    var read: nat

    constructor (chunks: seq<Frame>)
      ensures this.chunks == chunks && read == 0
    {
      this.chunks, read := chunks, 0;
    }

    method Next() returns (chunk: Option<Frame>)
      requires read <= |chunks|
      modifies this
      ensures old(read) == |chunks| ==> chunk == None && read == old(read)
      ensures old(read) < |chunks| ==> chunk == Some(chunks[old(read)]) && read == old(read) + 1
    {
      if read == |chunks| {
        return None;
      }
      chunk := Some(chunks[read]);
      read := read + 1;
    }

    /** The next value of the validating generator: a chunk is checked as it arrives. */
    method NextValidated(key: string, required: seq<string>) returns (r: Result<Option<Frame>, ValidationError>)
      requires read <= |chunks|
      modifies this
      ensures old(read) == |chunks| ==> r == Ok(None) && read == old(read)
      ensures old(read) < |chunks| ==>
                && read == old(read) + 1
                && r == match Validate(chunks[old(read)], key, required)
                        case Ok(chunk) => Ok(Some(chunk))
                        case Err(e) => Err(e)
    {
      var next := Next();
      match next
      case None => r := Ok(None);
      case Some(chunk) =>
        var checked := Validate(chunk, key, required);
        r := match checked
          case Ok(valid) => Ok(Some(valid))
          case Err(e) => Err(e);
    }
  }

  lemma OneMoreChunk(chunks: seq<Frame>, k: nat, key: string, required: seq<string>)
    requires k < |chunks|
    ensures RowsOf(chunks[..k + 1]) == RowsOf(chunks[..k]) + chunks[k].rows
    ensures AllValid(chunks[..k + 1], key, required) <==>
              AllValid(chunks[..k], key, required) && Validate(chunks[k], key, required).Ok?
  {
    assert chunks[..k + 1][..k] == chunks[..k];
    assert chunks[..k + 1] == chunks[..k] + [chunks[k]];
  }

  lemma {:induction false} OneMoreRowScanned(before: seq<Row>, rows: seq<Row>, i: nat, key: string)
    requires i < |rows|
    ensures Scan(before + rows[..i + 1], key) == Assign(Scan(before + rows[..i], key), KeyOf(rows[i], key), rows[i])
  {
    ScanAppend(before + rows[..i], rows[i], key);
    assert before + rows[..i] + [rows[i]] == before + rows[..i + 1];
  }

  /** `for row in chunk.itertuples()`: assigns each row under its key. */
  method AssignRows(latest: Dict, rows: seq<Row>, key: string, ghost before: seq<Row>) returns (d: Dict)
    requires latest == Scan(before, key)
    ensures d == Scan(before + rows, key)
  {
    d := latest;
    assert before + rows[..0] == before;
    for i := 0 to |rows|
      invariant d == Scan(before + rows[..i], key)
    {
      OneMoreRowScanned(before, rows, i, key);
      d := Assign(d, KeyOf(rows[i], key), rows[i]);
    }
    assert rows[..|rows|] == rows;
  }

  /** `dedupe_last_seen_chunks` over the validating generator. On the first bad chunk it fails
      with that chunk's error, having read no chunk after it; otherwise its rows depend on the
      concatenated feed only, not on how it was cut into chunks. */
  method DedupeChunks(stream: ChunkStream, key: string, required: seq<string>)
    returns (r: Result<Frame, ValidationError>)
    requires stream.read == 0
    modifies stream
    ensures r.Ok? <==> AllValid(stream.chunks, key, required)
    ensures r.Ok? ==>
              && stream.read == |stream.chunks|
              && r.value.rows == ValuesOf(Scan(RowsOf(stream.chunks), key))
              && r.value.columns == if stream.chunks == [] then [] else stream.chunks[0].columns
    ensures r.Err? ==>
              && 0 < stream.read <= |stream.chunks|
              && AllValid(stream.chunks[..stream.read - 1], key, required)
              && Validate(stream.chunks[stream.read - 1], key, required) == Err(r.error)
  {
    var latest := Dict([], map[]);
    var columns: Option<seq<string>> := None;
    var chunks := stream.chunks;
    ghost var rows: seq<Row> := [];
    var exhausted := false;
    while !exhausted
      invariant stream.read <= |chunks| && (exhausted ==> stream.read == |chunks|)
      invariant rows == RowsOf(chunks[..stream.read]) && latest == Scan(rows, key)
      invariant AllValid(chunks[..stream.read], key, required)
      invariant columns == if stream.read == 0 then None else Some(chunks[0].columns)
      decreases |chunks| - stream.read + if exhausted then 0 else 1
    {
      ghost var seen := stream.read;
      var next := stream.NextValidated(key, required);
      if next.Err? {
        NotAllValid(chunks, seen, key, required);
        return Err(next.error);
      } else if next.value.None? {
        exhausted := true;
      } else {
        var chunk := next.value.value;
        columns := if columns.None? then Some(chunk.columns) else columns;
        OneMoreChunk(chunks, seen, key, required);
        latest := AssignRows(latest, chunk.rows, key, rows);
        rows := rows + chunk.rows;
      }
    }
    assert chunks[..|chunks|] == chunks;
    return Ok(Frame(if columns.Some? then columns.value else [], ValuesOf(latest)));
  }

  lemma NotAllValid(chunks: seq<Frame>, k: nat, key: string, required: seq<string>)
    requires k < |chunks| && Validate(chunks[k], key, required).Err?
    ensures !AllValid(chunks, key, required)
  {
    assert chunks[k] in chunks;
  }

  // ---- `load_records` ----

  /** A feed is read in chunks when its source can stream, and whole otherwise. */
  datatype Source = Whole(feed: Frame) | Chunked(chunks: seq<Frame>)

  function FeedRows(source: Source): seq<Row> {
    match source
    case Whole(feed) => feed.rows
    case Chunked(chunks) => RowsOf(chunks)
  }

  predicate Acceptable(source: Source, key: string, required: seq<string>) {
    match source
    case Whole(feed) => Validate(feed, key, required).Ok?
    case Chunked(chunks) => AllValid(chunks, key, required)
  }

  /** The frames a feed is read in. */
  function FramesOf(source: Source): seq<Frame> {
    match source
    case Whole(feed) => [feed]
    case Chunked(chunks) => chunks
  }

  /** A feed is accepted exactly when every frame it is read in has every required column and every
      row has a real key. */
  lemma AcceptableMeans(source: Source, key: string, required: seq<string>)
    ensures Acceptable(source, key, required) <==>
              && (forall c, name | c in FramesOf(source) && name in [key] + required :: name in c.columns)
              && (forall row: Row | row in FeedRows(source) ::
                    && key in row && row[key].Text?
                    && exists i :: 0 <= i < |row[key].text| && !IsSpace(row[key].text[i]))
  {
    match source
    case Whole(feed) => ValidateMeans(feed, key, required);
    case Chunked(chunks) => AllValidMeans(chunks, key, required);
  }

  lemma {:induction false} AllValidMeans(chunks: seq<Frame>, key: string, required: seq<string>)
    ensures AllValid(chunks, key, required) <==>
              && (forall c, name | c in chunks && name in [key] + required :: name in c.columns)
              && (forall row | row in RowsOf(chunks) :: HasText(KeyOf(row, key)))
  {
    RowsOfMeans(chunks);
    forall c | c in chunks
      ensures Validate(c, key, required).Ok? <==>
                && (forall name | name in [key] + required :: name in c.columns)
                && (forall row | row in c.rows :: HasText(KeyOf(row, key)))
    {
      ValidateMeans(c, key, required);
    }
  }

  lemma {:induction false} RowsOfMeans(chunks: seq<Frame>)
    ensures forall row :: row in RowsOf(chunks) <==> exists c :: c in chunks && row in c.rows
  {
    if chunks != [] {
      var init, last := chunks[..|chunks| - 1], chunks[|chunks| - 1];
      RowsOfMeans(init);
      assert chunks == init + [last];
      assert last in chunks;
    }
  }

  lemma AcceptableHasRealKeys(source: Source, key: string, required: seq<string>)
    requires Acceptable(source, key, required)
    ensures forall r | r in FeedRows(source) :: HasText(KeyOf(r, key))
  {
    AcceptableMeans(source, key, required);
  }

  /** Rows that can be written: one per key of the feed, the last seen, and every key real. */
  ghost predicate Writable(source: Source, key: string, rows: seq<Row>) {
    && LastSeen(FeedRows(source), key, rows)
    && forall row | row in rows :: HasText(KeyOf(row, key))
  }

  /** The error is that of the whole feed, or that of the first bad chunk. */
  ghost predicate RejectedFor(source: Source, key: string, required: seq<string>, error: ValidationError) {
    match source
    case Whole(feed) => Validate(feed, key, required) == Err(error)
    case Chunked(chunks) =>
      exists k :: 0 <= k < |chunks| && AllValid(chunks[..k], key, required)
                  && Validate(chunks[k], key, required) == Err(error)
  }

  /** It fails exactly on the feeds that validation rejects, with the error of the feed or of its
      first bad chunk; whatever it returns can be written, and is in the order of the read path. */
  method LoadRecords(source: Source, key: string, required: seq<string>) returns (r: Result<Frame, ValidationError>)
    ensures r.Ok? <==> Acceptable(source, key, required)
    ensures r.Ok? ==> Writable(source, key, r.value.rows)
    ensures r.Ok? ==>
              && r.value.columns == (if FramesOf(source) == [] then [] else FramesOf(source)[0].columns)
              && r.value.rows
              == if source.Whole? then KeepLast(FeedRows(source), key) else ValuesOf(Scan(FeedRows(source), key))
    ensures r.Err? ==> RejectedFor(source, key, required, r.error)
  {
    match source
    case Chunked(chunks) =>
      var stream := new ChunkStream(chunks);
      r := DedupeChunks(stream, key, required);
      if r.Ok? {
        DictLastSeen(RowsOf(chunks), key);
        RowsHaveRealKeys(source, key, required, r.value.rows);
      }
    case Whole(feed) =>
      var checked := Validate(feed, key, required);
      if checked.Err? {
        return checked;
      }
      ValidateMeans(feed, key, required);
      r := Ok(Frame(checked.value.columns, KeepLast(checked.value.rows, key)));
      KeepLastSeen(feed.rows, key);
      RowsHaveRealKeys(source, key, required, r.value.rows);
  }

  lemma RowsHaveRealKeys(source: Source, key: string, required: seq<string>, rows: seq<Row>)
    requires Acceptable(source, key, required) && LastSeen(FeedRows(source), key, rows)
    ensures forall row | row in rows :: HasText(KeyOf(row, key))
  {
    AcceptableHasRealKeys(source, key, required);
    forall row | row in rows
      ensures HasText(KeyOf(row, key))
    {
      var i :| 0 <= i < |FeedRows(source)| && FeedRows(source)[i] == row;
      assert FeedRows(source)[i] in FeedRows(source);
    }
  }

  // ---- From rows to requests ----

  function ItemOf(row: Row, key: string, payload: Row -> Fields): Item {
    Item(match KeyOf(row, key) case Text(text) => text case Null => "", payload(row))
  }

  function ItemsOf(rows: seq<Row>, key: string, payload: Row -> Fields): seq<Item> {
    seq(|rows|, i requires 0 <= i < |rows| => ItemOf(rows[i], key, payload))
  }

  lemma LoadedKeysAreDistinct(rows: seq<Row>, key: string, payload: Row -> Fields)
    requires DistinctBy(rows, key) && forall r | r in rows :: HasText(KeyOf(r, key))
    ensures DistinctKeys(ItemsOf(rows, key, payload))
  {
    assert forall i | 0 <= i < |rows| :: rows[i] in rows;
  }

  /** Fully successful runs through either read path leave the same destination. */
  lemma {:induction false} BothPathsLeaveTheSame(
    d: Store, whole: Source, chunked: Source, a: seq<Row>, b: seq<Row>, key: string, payload: Row -> Fields)
    requires FeedRows(whole) == FeedRows(chunked)
    requires Writable(whole, key, a) && Writable(chunked, key, b)
    ensures multiset(a) == multiset(b)
    ensures Members(ItemsOf(a, key, payload)) == Members(ItemsOf(b, key, payload))
    ensures ApplyAll(d, ItemsOf(a, key, payload)) == ApplyAll(d, ItemsOf(b, key, payload))
  {
    LastSeenIsUniqueUpToOrder(FeedRows(whole), key, a, b);
    assert forall r :: r in a <==> r in multiset(a);
    assert forall r :: r in b <==> r in multiset(b);
    LoadedKeysAreDistinct(a, key, payload);
    LoadedKeysAreDistinct(b, key, payload);
    SameMembers(a, b, key, payload);
    SameMembers(b, a, key, payload);
    OrderDoesNotMatter(d, ItemsOf(a, key, payload), ItemsOf(b, key, payload));
  }

  lemma SameMembers(a: seq<Row>, b: seq<Row>, key: string, payload: Row -> Fields)
    requires forall r | r in a :: r in b
    ensures Members(ItemsOf(a, key, payload)) <= Members(ItemsOf(b, key, payload))
  {
    var xs, ys := ItemsOf(a, key, payload), ItemsOf(b, key, payload);
    forall it | it in xs
      ensures it in ys
    {
      var i :| 0 <= i < |xs| && xs[i] == it;
      assert a[i] in b;
      var j :| 0 <= j < |b| && b[j] == a[i];
      assert ys[j] == it;
    }
  }
}
