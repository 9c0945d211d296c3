/** Following next_page through a paginated selection, flushing to bronze as rows pile up. */
module RestSweep {
  import opened Tables
  import RestExchange

  // ---------------------------------------------------------------- the server's selection

  /** One row of the store; `rank` is its place in the (date, campaign, ad set) order, which no
      two rows share. */
  datatype AdRow = AdRow(rank: int, originalUpdatedAt: int)

  function RankOf(r: AdRow): int { r.rank }

  /** Restated rows look updated at the time of the request. */
  function UpdatedAt(r: AdRow, restated: set<int>, now: int): int {
    if r.rank in restated then now else r.originalUpdatedAt
  }

  /** The masked rows in sorted order. */
  ghost predicate IsSelection(store: seq<AdRow>, restated: set<int>, now: int, since: int, sel: seq<AdRow>) {
    && Ordered(sel, RankOf)
    && (forall r :: r in sel ==> r in store && UpdatedAt(r, restated, now) >= since)
    && (forall r :: r in store && UpdatedAt(r, restated, now) >= since ==> r in sel)
  }

  /** The selection a request sees is unique, and it is the whole store in order, whatever slice
      is being restated, as long as the watermark precedes every original updated_at. */
  lemma EarlyWatermarkSelectsAll(
      store: seq<AdRow>, since: int, restated: set<int>, now: int, sel: seq<AdRow>,
      restated': set<int>, now': int, sel': seq<AdRow>)
    requires since <= now && since <= now' && forall r :: r in store ==> since <= r.originalUpdatedAt
    requires IsSelection(store, restated, now, since, sel) && IsSelection(store, restated', now', since, sel')
    ensures sel == sel' && SameRows(sel, store)
  {
    OrderedAgree(sel, sel', RankOf);
  }

  /** A sync from a later watermark: it is sent every row being restated, however old, and of the
      others exactly those whose own stamp has reached the watermark. */
  lemma RestatedRowsAreSent(store: seq<AdRow>, since: int, restated: set<int>, now: int, sel: seq<AdRow>, r: AdRow)
    requires since <= now && IsSelection(store, restated, now, since, sel) && r in store
    ensures r.rank in restated ==> r in sel
    ensures r.rank !in restated ==> (r in sel <==> r.originalUpdatedAt >= since)
  {
  }

  // ---------------------------------------------------------------- pages

  function TotalPages(n: nat, size: nat): (total: nat)
    requires size > 0
    ensures total >= 1
  {
    var pages := (n + size - 1) / size;
    if pages < 1 then 1 else pages
  }

  /** Python's clamped slices [:k] and [k : k + size]. */
  function Prefix<T>(sel: seq<T>, k: nat): seq<T> {
    if k >= |sel| then sel else sel[..k]
  }

  function Slice<T>(sel: seq<T>, k: nat, size: nat): (rows: seq<T>)
    ensures |rows| <= size
  {
    if k >= |sel| then [] else if k + size >= |sel| then sel[k..] else sel[k..k + size]
  }

  /** meta.next_page */
  function NextPage(totalPages: nat, page: nat): Option<nat> {
    if page < totalPages then Some(page + 1) else None
  }

  /** (page - 1) * page_size, for page `i + 1`. */
  function Start(i: nat, size: nat): nat {
    if i == 0 then 0 else Start(i - 1, size) + size
  }

  lemma {:induction false} StartIsProduct(i: nat, size: nat)
    ensures Start(i, size) == i * size
  {
    if i > 0 {
      StartIsProduct(i - 1, size);
      assert (i - 1) * size + size == i * size;
    }
  }

  /** The server's answers to the first `n` requests of a sweep. */
  function PagesUpTo<T>(sel: seq<T>, size: nat, n: nat): (pages: seq<seq<T>>)
    ensures |pages| == n && forall i :: 0 <= i < n ==> |pages[i]| <= size
  {
    if n == 0 then [] else PagesUpTo(sel, size, n - 1) + [Slice(sel, Start(n - 1, size), size)]
  }

  function Pages<T>(sel: seq<T>, size: nat): seq<seq<T>>
    requires size > 0
  {
    PagesUpTo(sel, size, TotalPages(|sel|, size))
  }

  lemma TileNext<T>(sel: seq<T>, size: nat, before: seq<seq<T>>, k: nat)
    requires Flatten(before) == Prefix(sel, k)
    ensures Flatten(before + [Slice(sel, k, size)]) == Prefix(sel, k + size)
  {
    FlattenOfNext(before, Slice(sel, k, size));
  }

  lemma {:induction false} PagesTile<T>(sel: seq<T>, size: nat, n: nat)
    ensures Flatten(PagesUpTo(sel, size, n)) == Prefix(sel, Start(n, size))
  {
    if n > 0 {
      PagesTile(sel, size, n - 1);
      TileNext(sel, size, PagesUpTo(sel, size, n - 1), Start(n - 1, size));
    }
  }

  /** Following next_page visits max(1, ceil(n / size)) pages, and they hold the selection once,
      in order. */
  lemma PagesAreTheSelection<T>(sel: seq<T>, size: nat)
    requires size > 0
    ensures Flatten(Pages(sel, size)) == sel
    ensures |Pages(sel, size)| == TotalPages(|sel|, size)
    ensures forall i :: 0 <= i < |Pages(sel, size)| ==> |Pages(sel, size)[i]| <= size
  {
    PagesTile(sel, size, TotalPages(|sel|, size));
    StartIsProduct(TotalPages(|sel|, size), size);
    PageCount(|sel|, size);
  }

  /** The number of pages is max(1, ceil(n / size)). */
  lemma PageCount(n: nat, size: nat)
    requires size > 0
    ensures var total := TotalPages(n, size);
      total * size >= n && (total == 1 || (total - 1) * size < n)
  {
    var q := (n + size - 1) / size;
    assert n + size - 1 == q * size + (n + size - 1) % size;
    assert (q - 1) * size == q * size - size;
  }

  function Flatten<T>(batches: seq<seq<T>>): seq<T> {
    if batches == [] then [] else Flatten(batches[..|batches| - 1]) + batches[|batches| - 1]
  }

  /** Every batch but the last was flushed because it had reached the threshold, by less than a page. */
  ghost predicate Flushed<T>(batches: seq<seq<T>>, flushEvery: nat, size: nat) {
    forall i :: 0 <= i < |batches| ==> flushEvery <= |batches[i]| < flushEvery + size
  }

  ghost predicate WellFlushed<T>(batches: seq<seq<T>>, flushEvery: nat, size: nat) {
    batches != [] ==>
      var n := |batches| - 1;
      Flushed(batches[..n], flushEvery, size) && 0 < |batches[n]| < flushEvery + size
  }

  lemma FlattenOfNext<T>(batches: seq<seq<T>>, batch: seq<T>)
    ensures Flatten(batches + [batch]) == Flatten(batches) + batch
  {
    assert (batches + [batch])[..|batches|] == batches;
  }

  // ---------------------------------------------------------------- the sweep

  /** bronze.campaign_performance as the batches written to it, and the stored watermark. */
  class Sync<T> {
    var batches: seq<seq<T>>
    var watermark: int
    var rowsLastRun: nat

    constructor (watermark: int)
      ensures batches == [] && this.watermark == watermark
    {
      batches, this.watermark, rowsLastRun := [], watermark, 0;
    }

    /** write_bronze; `before` are the batches of earlier runs, `run` those of this one. */
    method WriteBatch(
        batch: seq<T>, ghost before: seq<seq<T>>, ghost run: seq<seq<T>>, ghost flushEvery: nat, ghost size: nat)
      returns (rows: nat, ghost run': seq<seq<T>>)
      requires batches == before + run
      requires Flushed(run, flushEvery, size) && 0 < |batch| < flushEvery + size
      modifies `batches
      ensures batches == before + run' && run' == run + [batch] && rows == |batch|
      ensures Flatten(run') == Flatten(run') + [] == Flatten(run) + batch
      ensures WellFlushed(run', flushEvery, size) && (|batch| >= flushEvery ==> Flushed(run', flushEvery, size))
    {
      FlattenOfNext(run, batch);
      assert (run + [batch])[..|run|] == run;
      batches, rows, run' := batches + [batch], |batch|, run + [batch];
      assert batches == before + run';
    }

    /** Flushes the buffer once it has reached the threshold. */
    method FlushIfFull(
        buffer: seq<T>, total: nat, ghost before: seq<seq<T>>, ghost run: seq<seq<T>>, flushEvery: nat, ghost size: nat)
      returns (buffer': seq<T>, total': nat, ghost run': seq<seq<T>>)
      requires batches == before + run && total == |Flatten(run)| && flushEvery > 0
      requires Flushed(run, flushEvery, size) && WellFlushed(run, flushEvery, size) && |buffer| < flushEvery + size
      modifies `batches
      ensures batches == before + run' && total' == |Flatten(run')|
      ensures Flushed(run', flushEvery, size) && WellFlushed(run', flushEvery, size) && |buffer'| < flushEvery
      ensures Flatten(run') + buffer' == Flatten(run) + buffer
    {
      buffer', total', run' := buffer, total, run;
      if |buffer| >= flushEvery {
        var rows;
        rows, run' := WriteBatch(buffer, before, run, flushEvery, size);
        total', buffer' := total + rows, [];
      }
    }

    /** Buffers the next page. */
    method TakePage(
        pages: seq<seq<T>>, visited: nat, buffer: seq<T>, total: nat, ghost before: seq<seq<T>>, ghost run: seq<seq<T>>,
        flushEvery: nat, ghost size: nat)
      returns (buffer': seq<T>, total': nat, ghost run': seq<seq<T>>)
      requires visited < |pages| && |pages[visited]| <= size && |buffer| < flushEvery
      requires batches == before + run && total == |Flatten(run)| && Flatten(run) + buffer == Flatten(pages[..visited])
      requires Flushed(run, flushEvery, size) && WellFlushed(run, flushEvery, size)
      modifies `batches
      ensures batches == before + run' && total' == |Flatten(run')|
      ensures Flushed(run', flushEvery, size) && WellFlushed(run', flushEvery, size) && |buffer'| < flushEvery
      ensures Flatten(run') + buffer' == Flatten(pages[..visited + 1])
    {
      Extended(Flatten(run), buffer, pages, visited);
      buffer', total', run' := FlushIfFull(buffer + pages[visited], total, before, run, flushEvery, size);
    }

    /** Writes what is left in the buffer and, last of all, moves the watermark. */
    method Finish(
        buffer: seq<T>, total: nat, ghost before: seq<seq<T>>, ghost run: seq<seq<T>>,
        ghost flushEvery: nat, ghost size: nat, startedAt: int)
      returns (ghost run': seq<seq<T>>)
      requires batches == before + run && total == |Flatten(run)| && |buffer| < flushEvery
      requires Flushed(run, flushEvery, size) && WellFlushed(run, flushEvery, size)
      modifies this
      ensures batches == before + run' && WellFlushed(run', flushEvery, size)
      ensures Flatten(run') == Flatten(run) + buffer
      ensures watermark == startedAt && rowsLastRun == |Flatten(run')|
    {
      var total' := total;
      run' := run;
      if buffer == [] {
        assert Flatten(run) + buffer == Flatten(run);
      } else {
        var rows;
        rows, run' := WriteBatch(buffer, before, run, flushEvery, size);
        total' := total + rows;
      }
      watermark, rowsLastRun := startedAt, total';
    }

    /** One run over `link`: `pages` are the pages the server holds, their rows and, through their
        number, next_page. A page whose retries run out aborts the run after the `visited` before
        it. `run` are the batches written. */
    method FollowPages(
        pages: seq<seq<T>>, ghost size: nat, flushEvery: nat, startedAt: int, link: RestExchange.Link)
      returns (ok: bool, visited: nat, ghost run: seq<seq<T>>)
      requires pages != [] && flushEvery > 0 && RestExchange.Serves(link, |pages|)
      requires forall i :: 0 <= i < |pages| ==> |pages[i]| <= size
      modifies this
      ensures batches == old(batches) + run && WellFlushed(run, flushEvery, size)
      // if the server admits anything, the run finishes exactly if every page arrives
      ensures ok ==> link.limit >= 1 && RestExchange.AllArrive(link, |pages|)
      ensures !ok ==> visited < |pages| && (link.limit <= 0 || !RestExchange.PageArrives(link, visited))
      // a finished run wrote every page once, in order, and only then moved the watermark
      ensures ok ==> Flatten(run) == Flatten(pages) && visited == |pages|
      ensures ok ==> watermark == startedAt && rowsLastRun == |Flatten(pages)|
      // an aborted one wrote a prefix of the pages before the failure and left the watermark alone
      ensures !ok ==> Flatten(run) <= Flatten(pages[..visited])
      ensures !ok ==> watermark == old(watermark) && rowsLastRun == old(rowsLastRun)
    {
      var buffer: seq<T>, total, page := [], 0, 1;
      var w, now := link.w, link.now;
      visited, run := 0, [];
      while true
        invariant page == visited + 1 <= |pages|
        invariant (w, now) == RestExchange.At(link, visited) && w.start <= now
        invariant RestExchange.AllArrive(link, visited)
        invariant batches == old(batches) + run && total == |Flatten(run)|
        invariant Flatten(run) + buffer == Flatten(pages[..visited])
        invariant |buffer| < flushEvery && Flushed(run, flushEvery, size) && WellFlushed(run, flushEvery, size)
        invariant watermark == old(watermark) && rowsLastRun == old(rowsLastRun)
        decreases |pages| - page
      {
        var arrived;
        arrived, w, now := RestExchange.FetchNext(link, visited, w, now);
        if !arrived {
          return false, visited, run;
        }
        buffer, total, run := TakePage(pages, visited, buffer, total, old(batches), run, flushEvery, size);
        visited := page;
        var next := NextPage(|pages|, page);
        if next.None? {
          break;
        }
        page := next.value;
      }
      assert pages[..visited] == pages;
      run := Finish(buffer, total, old(batches), run, flushEvery, size, startedAt);
      ok := true;
    }

    /** The sync of a selection every request of the run sees: it finishes exactly if no page draws
        more than six 5xx, or a refusal, among its admitted requests. */
    method Run(sel: seq<T>, size: nat, flushEvery: nat, startedAt: int, link: RestExchange.Link)
      returns (ok: bool, visited: nat, ghost run: seq<seq<T>>)
      requires size > 0 && flushEvery > 0 && RestExchange.Serves(link, TotalPages(|sel|, size))
      modifies this
      ensures batches == old(batches) + run && WellFlushed(run, flushEvery, size)
      ensures ok <==> link.limit >= 1 && RestExchange.AllArrive(link, TotalPages(|sel|, size))
      ensures ok ==> Flatten(run) == sel && visited == TotalPages(|sel|, size)
      ensures ok ==> watermark == startedAt && rowsLastRun == |sel|
      ensures !ok ==> Flatten(run) <= sel && watermark == old(watermark) && rowsLastRun == old(rowsLastRun)
    {
      PagesAreTheSelection(sel, size);
      ok, visited, run := FollowPages(Pages(sel, size), size, flushEvery, startedAt, link);
      if !ok {
        FlattenOfPrefix(Pages(sel, size), visited);
      }
    }
  }

  lemma Extended<T>(flat: seq<T>, buffer: seq<T>, pages: seq<seq<T>>, n: nat)
    requires n < |pages| && flat + buffer == Flatten(pages[..n])
    ensures flat + (buffer + pages[n]) == Flatten(pages[..n + 1])
  {
    assert pages[..n + 1] == pages[..n] + [pages[n]];
    FlattenOfNext(pages[..n], pages[n]);
    assert flat + (buffer + pages[n]) == (flat + buffer) + pages[n];
  }

  lemma {:induction false} FlattenOfPrefix<T>(pages: seq<seq<T>>, n: nat)
    requires n <= |pages|
    ensures Flatten(pages[..n]) <= Flatten(pages)
  {
    if n == |pages| {
      assert pages[..n] == pages;
    } else {
      var m := |pages| - 1;
      FlattenOfPrefix(pages[..m], n);
      assert pages[..m][..n] == pages[..n];
    }
  }
}
