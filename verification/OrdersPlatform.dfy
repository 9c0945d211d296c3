/** The extraction loop and the silver job as they update the stored tables, tied step by step
    to the transition system. */
module OrdersPlatform {
  import opened Tables
  import opened Orders
  import opened OrdersPipeline

  /** bronze.orders, silver.orders and the control table's row for the pipeline. The ghost fields
      are the source database and the extraction in progress. */
  class Platform {
    var bronze: seq<BronzeRow>
    var silver: Option<seq<Order>>
    var stored: Option<int>
    var clock: int
    ghost var oltp: map<int, Order>
    ghost var run: Extraction

    ghost function View(): State
      reads this
    {
      State(oltp, bronze, stored, run, silver, clock)
    }

    /** write_bronze: appends one chunk under a later stamp. */
    method WriteBronze(chunk: seq<Order>) returns (written: nat)
      requires Inv(View()) && run.Running? && chunk != [] && chunk <= run.pending
      modifies `bronze, `clock, `run
      ensures clock > old(clock) && Inv(View())
      ensures run == Running(old(run.from), old(run.pending)[|chunk|..], Highest(chunk, old(run.high)))
      ensures OrdersOf(bronze) == OrdersOf(old(bronze)) + chunk && written == |chunk|
    {
      ghost var after := Next(View(), Chunk(|chunk|, clock + 1));
      assert run.pending[..|chunk|] == chunk;
      ChunkKeepsInv(View(), |chunk|, clock + 1);
      bronze, clock, run := bronze + Stamped(chunk, clock + 1), clock + 1, after.run;
      written := |chunk|;
      assert View() == after;
    }

    /** The cursor opens: it sees the database as it is now. */
    ghost method OpenCursor(rows: seq<Order>)
      requires Inv(View()) && Enabled(View(), Begin(rows))
      modifies `run
      ensures Inv(View()) && run == Running(Watermark(View()), rows, Watermark(View()))
    {
      BeginKeepsInv(View(), rows);
      run := Running(Watermark(View()), rows, Watermark(View()));
    }

    ghost method CloseCursor()
      requires Inv(View()) && Enabled(View(), Finish)
      modifies `run
      ensures Inv(View()) && run == Done(old(run.high))
    {
      ControlKeepsInv(View(), Finish);
      run := Done(run.high);
    }

    /** The next `chunkSize` rows of the cursor: lands them and raises the running maximum. */
    method LandChunk(rest: seq<Order>, chunkSize: nat, high: int) returns (more: seq<Order>, written: nat, high': int)
      requires Inv(View()) && run.Running? && run.pending == rest && run.high == high
      requires rest != [] && chunkSize > 0
      modifies `bronze, `clock, `run
      ensures Inv(View()) && run == Running(old(run.from), more, high')
      ensures written + |more| == |rest| && written > 0
      ensures OrdersOf(bronze) + more == OrdersOf(old(bronze)) + rest
      ensures Highest(more, high') == Highest(rest, high)
    {
      var n := if |rest| < chunkSize then |rest| else chunkSize;
      var chunk := rest[..n];
      more := rest[n..];
      assert chunk + more == rest;
      ChunkOf(chunk, more, high, OrdersOf(bronze));
      written := WriteBronze(chunk);
      var batchMax := Highest(chunk, chunk[0].updatedAt);
      high' := if batchMax > high then batchMax else high;
    }

    /** `rows` is the cursor's result set. */
    method CopyOrdersIncremental(rows: seq<Order>, chunkSize: nat) returns (total: nat, high: int)
      requires Inv(View()) && Enabled(View(), Begin(rows)) && chunkSize > 0
      modifies `bronze, `clock, `run
      ensures Inv(View()) && run == Done(high)
      ensures total == |rows| && high == Highest(rows, Watermark(old(View())))
      ensures OrdersOf(bronze) == OrdersOf(old(bronze)) + rows
    {
      var watermark := if stored.Some? then stored.value else DEFAULT_WATERMARK;
      OpenCursor(rows);
      total, high := 0, watermark;
      var rest := rows;
      while rest != []
        invariant Inv(View()) && run == Running(watermark, rest, high)
        invariant total + |rest| == |rows|
        invariant Highest(rest, high) == Highest(rows, watermark)
        invariant OrdersOf(bronze) + rest == OrdersOf(old(bronze)) + rows
        decreases |rest|
      {
        var written;
        rest, written, high := LandChunk(rest, chunkSize, high);
        total := total + written;
      }
      CloseCursor();
    }

    /** The whole pipeline: the watermark moves only once every chunk is in bronze. */
    method Run(rows: seq<Order>, chunkSize: nat)
      requires Inv(View()) && Enabled(View(), Begin(rows)) && chunkSize > 0
      modifies `bronze, `clock, `run, `stored
      ensures Inv(View()) && run.Idle?
      ensures stored == Some(Highest(rows, Watermark(old(View()))))
      ensures OrdersOf(bronze) == OrdersOf(old(bronze)) + rows
    {
      var total, high := CopyOrdersIncremental(rows, chunkSize);
      ControlKeepsInv(View(), Advance);
      run, stored := Idle, Some(high);
    }

    /** The silver job: never refused, and it leaves what bronze received last, order by order. */
    method MergeIntoSilver(rn: seq<nat>) returns (merged: bool)
      requires Inv(View()) && RowNumbers(bronze, BronzeId, IngestedAt, rn)
      modifies `silver
      ensures merged && silver.Some? && UniqueKeys(silver.value, OrderId)
      ensures forall r :: r in silver.value <==> LastLanded(bronze, r.id) == Some(r)
      ensures Inv(View())
    {
      MergeShowsLastLanded(View(), rn);
      MergeKeepsInv(View(), rn);
      var outcome := SilverRun(silver, bronze, rn);
      merged := outcome.Merged?;
      if merged {
        silver := Some(outcome.rows);
      }
    }
  }

  lemma ChunkOf(chunk: seq<Order>, more: seq<Order>, high: int, landed: seq<Order>)
    requires chunk != []
    ensures Highest(chunk + more, high) == Highest(more, Highest(chunk, high))
    ensures Highest(chunk, high) == Max(high, Highest(chunk, chunk[0].updatedAt))
    ensures (landed + chunk) + more == landed + (chunk + more)
  {
    HighestOfConcat(chunk, more, high);
    BatchMax(chunk, high);
  }

  lemma BatchMax(chunk: seq<Order>, high: int)
    requires chunk != []
    ensures Highest(chunk, high) == Max(high, Highest(chunk, chunk[0].updatedAt))
  {
    var first := chunk[0].updatedAt;
    HighestBounds(chunk, high);
    HighestBounds(chunk, first);
    assert chunk[0] in chunk;
  }
}
