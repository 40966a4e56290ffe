/** The shape shared by both scraper pipelines: `process` folds a list
    of links into rows, each link skipped, turned into a row, or raising
    (which ends the shard); `main` truncates the link list, cuts it into
    shards, optionally runs the first shard as a sanity check, maps
    `process` over the shards in a pool of workers and concatenates the
    resulting frames in shard order. */
module Sharding {
  import opened PyBase
  import opened Sorting
  import opened Chunking
  import opened Frames
  import opened PdfText
  import opened Keywords
  import opened PaperInfo

  /** The outside world a pipeline step consults, as given functions:
      the detail page a URL yields (fetched and parsed, or a request
      failure), the PDF a URL yields (downloaded and opened, or a
      request failure), and the TF-IDF vectorizer. */
  datatype Services = Services(
    page: string -> Result<DetailPage>,
    pdf: string -> Result<PdfFile>,
    vectorize: Vectorizer)

  /** What `process` does with one link: `Ok(None)` for a `continue`,
      `Ok(Some(row))` for an appended row, `Err` for an exception. */
  type Step = string -> Result<Option<Row>>

  const MAX_NUM_PAPER: nat := 10000

  /** The rows one link contributes. */
  function RowsOf(r: Result<Option<Row>>): seq<Row> {
    if r.Ok? && r.value.Some? then [r.value.value] else []
  }

  /** The loop of `process`: the rows of the links in link order, or the
      first exception. */
  function FoldRows(links: seq<string>, step: Step): Result<seq<Row>> {
    if links == [] then Ok([])
    else match step(links[0])
      case Err(e) => Err(e)
      case Ok(o) =>
        match FoldRows(links[1..], step)
        case Err(e) => Err(e)
        case Ok(rest) => Ok(RowsOf(Ok(o)) + rest)
  }

  /** Running one computation after another: the first exception wins,
      otherwise the rows are put together. */
  function AndThen(a: Result<seq<Row>>, b: Result<seq<Row>>): Result<seq<Row>> {
    match a
    case Err(e) => Err(e)
    case Ok(x) =>
      match b
      case Err(e) => Err(e)
      case Ok(y) => Ok(x + y)
  }

  /** The fold is a reference definition in closed form: it succeeds
      exactly when every link's step does, and then it is the rows of
      the links in order; otherwise it raises the first link's exception. */
  lemma {:induction false} FoldRowsSpec(links: seq<string>, step: Step)
    ensures FoldRows(links, step).Ok? <==> forall i :: 0 <= i < |links| ==> step(links[i]).Ok?
    ensures FoldRows(links, step).Ok? ==>
              FoldRows(links, step).value
              == Flatten(seq(|links|, i requires 0 <= i < |links| => RowsOf(step(links[i]))))
    ensures FoldRows(links, step).Err? ==>
              exists i :: 0 <= i < |links| && step(links[i]) == Err(FoldRows(links, step).exc)
                          && forall j :: 0 <= j < i ==> step(links[j]).Ok?
  {
    if links != [] {
      FoldRowsSpec(links[1..], step);
      var all := seq(|links|, i requires 0 <= i < |links| => RowsOf(step(links[i])));
      var tail := seq(|links[1..]|, i requires 0 <= i < |links[1..]| => RowsOf(step(links[1..][i])));
      assert all[1..] == tail;
      assert forall i :: 1 <= i < |links| ==> links[i] == links[1..][i - 1];
      if step(links[0]).Ok? && FoldRows(links[1..], step).Err? {
        var i :| 0 <= i < |links[1..]| && step(links[1..][i]) == Err(FoldRows(links, step).exc)
                 && forall j :: 0 <= j < i ==> step(links[1..][j]).Ok?;
        assert step(links[i + 1]) == Err(FoldRows(links, step).exc);
        assert forall j :: 1 <= j < i + 1 ==> step(links[j]).Ok? by {
          forall j | 1 <= j < i + 1 ensures step(links[j]).Ok? {
            assert links[j] == links[1..][j - 1];
          }
        }
      }
    }
  }

  /** Folding a list cut in two is folding each part in order. */
  lemma {:induction false} FoldRowsAppend(a: seq<string>, b: seq<string>, step: Step)
    ensures FoldRows(a + b, step) == AndThen(FoldRows(a, step), FoldRows(b, step))
  {
    if a == [] {
      assert a + b == b;
      if FoldRows(b, step).Ok? {
        assert [] + FoldRows(b, step).value == FoldRows(b, step).value;
      }
    } else {
      assert (a + b)[0] == a[0];
      assert (a + b)[1..] == a[1..] + b;
      FoldRowsAppend(a[1..], b, step);
      var x, y := FoldRows(a[1..], step), FoldRows(b, step);
      if step(a[0]).Ok? && x.Ok? && y.Ok? {
        var r := RowsOf(step(a[0]));
        assert r + (x.value + y.value) == (r + x.value) + y.value;
      }
    }
  }

  /** The fold seen from position `i`: the step of link `i`, then the
      rest. */
  lemma FoldRowsAt(links: seq<string>, i: nat, step: Step)
    requires i < |links|
    ensures FoldRows(links[i..], step)
            == if step(links[i]).Err? then Err(step(links[i]).exc)
               else AndThen(Ok(RowsOf(step(links[i]))), FoldRows(links[i + 1..], step))
  {
    assert links[i..][1..] == links[i + 1..];
  }

  lemma AndThenOk(a: seq<Row>, b: seq<Row>, x: Result<seq<Row>>)
    ensures AndThen(Ok(a), AndThen(Ok(b), x)) == AndThen(Ok(a + b), x)
  {
    if x.Ok? {
      assert a + (b + x.value) == (a + b) + x.value;
    }
  }

  /** Pieces of at most one item flatten to at most one item each. */
  lemma {:induction false} FlattenSmall(per: seq<seq<Row>>)
    requires forall i :: 0 <= i < |per| ==> |per[i]| <= 1
    ensures |Flatten(per)| <= |per|
  {
    if per != [] {
      FlattenSmall(per[1..]);
    }
  }

  /** An item of a flattening comes from one of the pieces. */
  lemma {:induction false} FlattenMember(per: seq<seq<Row>>, k: nat)
    requires k < |Flatten(per)|
    ensures exists i, j :: 0 <= i < |per| && 0 <= j < |per[i]| && per[i][j] == Flatten(per)[k]
  {
    if k < |per[0]| {
      assert Flatten(per)[k] == per[0][k];
    } else {
      FlattenMember(per[1..], k - |per[0]|);
      var i, j :| 0 <= i < |per[1..]| && 0 <= j < |per[1..][i]| && per[1..][i][j] == Flatten(per[1..])[k - |per[0]|];
      assert per[i + 1][j] == Flatten(per)[k];
    }
  }

  /** Every row of a successful fold comes from one link's step. */
  lemma FoldRowsFrom(links: seq<string>, step: Step, k: nat)
    requires FoldRows(links, step).Ok? && k < |FoldRows(links, step).value|
    ensures exists i :: 0 <= i < |links| && FoldRows(links, step).value[k] in RowsOf(step(links[i]))
  {
    FoldRowsSpec(links, step);
    var per := seq(|links|, i requires 0 <= i < |links| => RowsOf(step(links[i])));
    FlattenMember(per, k);
    var i, j :| 0 <= i < |per| && 0 <= j < |per[i]| && per[i][j] == FoldRows(links, step).value[k];
    assert FoldRows(links, step).value[k] in RowsOf(step(links[i]));
  }

  /** `process(links)`: the rows as a frame, with the fixed schema
      `empty` when no row was produced. */
  function ProcessShard(links: seq<string>, step: Step, empty: seq<string>): Result<Frame> {
    match FoldRows(links, step)
    case Err(e) => Err(e)
    case Ok(rows) => Ok(ToFrame(rows, empty))
  }

  /** `Pool.map(process, chunks)`: every shard's frame in shard order; an
      exception in a shard is raised by the map (the first failing
      shard in shard order). */
  function MapShards(chunks: seq<seq<string>>, step: Step, empty: seq<string>): Result<seq<Frame>> {
    if chunks == [] then Ok([])
    else match ProcessShard(chunks[0], step, empty)
      case Err(e) => Err(e)
      case Ok(f) =>
        match MapShards(chunks[1..], step, empty)
        case Err(e) => Err(e)
        case Ok(fs) => Ok([f] + fs)
  }

  /** Mapping over the shards fails exactly as folding over the links
      they hold, and otherwise yields the same rows, shard after shard. */
  lemma {:induction false} MapShardsFold(chunks: seq<seq<string>>, step: Step, empty: seq<string>)
    ensures MapShards(chunks, step, empty).Err? <==> FoldRows(Flatten(chunks), step).Err?
    ensures MapShards(chunks, step, empty).Err? ==>
              MapShards(chunks, step, empty).exc == FoldRows(Flatten(chunks), step).exc
    ensures MapShards(chunks, step, empty).Ok? ==>
              && |MapShards(chunks, step, empty).value| == |chunks|
              && AllRows(MapShards(chunks, step, empty).value) == FoldRows(Flatten(chunks), step).value
  {
    if chunks != [] {
      MapShardsFold(chunks[1..], step, empty);
      FoldRowsAppend(chunks[0], Flatten(chunks[1..]), step);
      var m := MapShards(chunks, step, empty);
      if m.Ok? {
        var f := ProcessShard(chunks[0], step, empty).value;
        var fs := MapShards(chunks[1..], step, empty).value;
        AllRowsCons(f, fs);
        if FoldRows(chunks[0], step).value == [] {
          assert f.rows == [];
        }
      }
    }
  }

  /** Each frame of the map is its shard's `process` result. */
  lemma {:induction false} MapShardsEach(chunks: seq<seq<string>>, step: Step, empty: seq<string>)
    ensures MapShards(chunks, step, empty).Ok? ==>
              && |MapShards(chunks, step, empty).value| == |chunks|
              && forall i :: 0 <= i < |chunks| ==>
                   ProcessShard(chunks[i], step, empty) == Ok(MapShards(chunks, step, empty).value[i])
  {
    if chunks != [] {
      MapShardsEach(chunks[1..], step, empty);
      if MapShards(chunks, step, empty).Ok? {
        var fs := MapShards(chunks, step, empty).value;
        forall i | 1 <= i < |chunks|
          ensures ProcessShard(chunks[i], step, empty) == Ok(fs[i])
        {
          assert chunks[i] == chunks[1..][i - 1];
        }
      }
    }
  }

  lemma AllRowsCons(f: Frame, fs: seq<Frame>)
    ensures AllRows([f] + fs) == f.rows + AllRows(fs)
  {
    var all := [f] + fs;
    var s := seq(|all|, i requires 0 <= i < |all| => all[i].rows);
    assert s[1..] == seq(|fs|, i requires 0 <= i < |fs| => fs[i].rows);
  }

  /** `main` after the link list is fetched: at most `MAX_NUM_PAPER`
      links, `list(chunkify(links, n))`, the sanity run of the first
      shard (whose frame is discarded but whose exception is not),
      `Pool(n)`, the map, and the concatenation. */
  function Run(links: seq<string>, n: int, sanity: bool, step: Step, empty: seq<string>): Result<Frame> {
    var kept := Take(links, MAX_NUM_PAPER);
    match Chunkify(kept, n)
    case Err(e) => Err(e)
    case Ok(chunks) =>
      if sanity && chunks == [] then Err(IndexError)
      else if sanity && ProcessShard(chunks[0], step, empty).Err? then Err(ProcessShard(chunks[0], step, empty).exc)
      else if n < 1 then Err(ValueError(PoolTooSmall))
      else
        match MapShards(chunks, step, empty)
        case Err(e) => Err(e)
        case Ok(frames) => Concat(frames)
  }

  /** Sharding is transparent: for a positive shard count and a non-empty
      link list, `main` fails exactly as one `process` over the first
      `MAX_NUM_PAPER` links would, and otherwise yields exactly its rows,
      in link order, whether or not the sanity run is made. */
  lemma RunIsFold(links: seq<string>, n: int, sanity: bool, step: Step, empty: seq<string>)
    requires n >= 1 && links != []
    ensures var all := FoldRows(Take(links, MAX_NUM_PAPER), step);
            && (all.Err? ==> Run(links, n, sanity, step, empty) == Err(all.exc))
            && (all.Ok? ==> Run(links, n, sanity, step, empty).Ok?
                            && Run(links, n, sanity, step, empty).value.rows == all.value)
  {
    var kept := Take(links, MAX_NUM_PAPER);
    ChunkifyCorrect(kept, n);
    var chunks := Chunkify(kept, n).value;
    MapShardsFold(chunks, step, empty);
    assert chunks == [chunks[0]] + chunks[1..];
    assert Flatten(chunks) == chunks[0] + Flatten(chunks[1..]);
    FoldRowsAppend(chunks[0], Flatten(chunks[1..]), step);
  }

  /** In a run that succeeds, every shard's `process` succeeds and its
      columns are among the columns of the result. */
  lemma RunShardColumns(links: seq<string>, n: int, sanity: bool, step: Step, empty: seq<string>, i: nat)
    requires Run(links, n, sanity, step, empty).Ok?
    ensures Chunkify(Take(links, MAX_NUM_PAPER), n).Ok?
    ensures var chunks := Chunkify(Take(links, MAX_NUM_PAPER), n).value;
            i < |chunks| ==>
              && ProcessShard(chunks[i], step, empty).Ok?
              && forall x :: x in ProcessShard(chunks[i], step, empty).value.columns ==>
                               x in Run(links, n, sanity, step, empty).value.columns
  {
    var chunks := Chunkify(Take(links, MAX_NUM_PAPER), n).value;
    var frames := MapShards(chunks, step, empty).value;
    MapShardsEach(chunks, step, empty);
    ConcatSpec(frames);
  }

  /** The ways `main` fails before any page is fetched. */
  lemma RunEdges(links: seq<string>, n: int, sanity: bool, step: Step, empty: seq<string>)
    ensures n == 0 ==> Run(links, n, sanity, step, empty) == Err(ZeroDivisionError)
    ensures n != 0 && links == [] ==> Run(links, n, sanity, step, empty) == Err(ValueError(ZeroRangeStep))
    ensures n < 0 && links != [] ==>
              Run(links, n, sanity, step, empty) == Err(if sanity then IndexError else ValueError(PoolTooSmall))
  {
    ChunkifyEdges(Take(links, MAX_NUM_PAPER), n);
  }

  /** Links past the first `MAX_NUM_PAPER` are never looked at. */
  lemma RunIgnoresTail(links: seq<string>, extra: seq<string>, n: int, sanity: bool, step: Step, empty: seq<string>)
    requires |links| >= MAX_NUM_PAPER
    ensures Run(links + extra, n, sanity, step, empty) == Run(links, n, sanity, step, empty)
  {
    assert (links + extra)[..MAX_NUM_PAPER] == links[..MAX_NUM_PAPER];
  }
}
