/** The frontier walker of the scraper (sitemap_scraper.py, lines 41-116):
    a FIFO worklist of sitemap references, a buffer of page URLs flushed in
    batches, and rotating output files. An interrupt stops the walk at an
    iteration boundary. */
module Walker {
  import opened Sitemaps
  import opened CsvOutput
  import opened Traversal
  import opened Loop
  import opened Seqs

  /** The traversal state of lines 45-56 and the loop over it. */
  class Frontier {
    /** The web as this run sees it. */
    const web: Web
    /** The files present once file 1 has been removed at startup. */
    ghost const base: Disk

    /** sitemaps_to_process */
    var worklist: seq<Url>
    /** all_urls */
    var buffer: seq<Url>
    /** file_count: the index of the current output file */
    var fileCount: nat
    /** current_file_lines: rows this run has written to the current file */
    var currentFileLines: nat
    /** The output files. */
    var files: Disk
    /** The references popped so far, in order. */
    ghost var processed: seq<Url>

    /** The state between statements of the loop body. */
    ghost predicate Steady()
      reads this
    {
      SteadyState(web, base, processed, buffer, fileCount, currentFileLines, files)
    }

    /** The fields as the loop state of the reference definition. */
    ghost function Snapshot(): LoopState
      reads this
    {
      LoopState(processed, worklist, buffer, fileCount, currentFileLines, files)
    }

    /** The state at every loop head: also, less than a batch is buffered. */
    ghost predicate Valid()
      reads this
    {
      LoopInv(web, base, Snapshot())
    }

    /** Lines 37-60: the seed is extracted as an index, the counters start
        at file 1 with no lines, and file 1 is removed if it exists. */
    constructor (seed: ParseResult, disk: Disk, web: Web)
      ensures Valid()
      ensures this.web == web && base == disk - {1}
      ensures worklist == Extract(seed, SITEMAP_ENTRY) && buffer == [] && processed == []
      ensures fileCount == 1 && currentFileLines == 0 && files == disk - {1}
      ensures Snapshot() == Initial(Extract(seed, SITEMAP_ENTRY), disk)
    {
      var initial := ExtractSitemapsFromIndex(seed);
      this.web := web;
      base := disk - {1};
      worklist := initial;
      buffer := [];
      fileCount := 1;
      currentFileLines := 0;
      files := disk - {1};
      processed := [];
      new;
      StartSteady(web, disk);
    }

    /** Lines 79-92: write a full batch, clear the buffer, and move on to
        the next file once the current one has reached the cap. */
    method FlushBatch()
      requires Steady() && buffer != []
      modifies this`files, this`currentFileLines, this`buffer, this`fileCount
      ensures Valid()
      ensures Snapshot() == Flushed(processed, worklist, old(buffer), old(fileCount), old(currentFileLines), old(files))
    {
      FlushedKeepsInv(web, base, processed, worklist, buffer, fileCount, currentFileLines, files);
      var lines := currentFileLines + |buffer|;
      if lines >= MAX_LINES_PER_FILE {
        files, buffer, fileCount, currentFileLines := Write(files, fileCount, buffer), [], fileCount + 1, 0;
      } else {
        files, buffer, currentFileLines := Write(files, fileCount, buffer), [], lines;
      }
    }

    /** One iteration of lines 64-95: pop the head, fetch it, and either
        drop it, enqueue the references of an index, or buffer the URLs of
        a leaf and flush once the buffer reaches the batch size. */
    method Step()
      requires Valid() && worklist != []
      modifies this
      ensures Valid()
      ensures Snapshot() == Next(web, old(Snapshot()))
    {
      ghost var s := Snapshot();
      NextKeepsInv(web, base, s);
      var head := worklist[0];
      worklist := worklist[1..];
      processed := processed + [head];
      var response := Fetch(web, head);
      match response {
        case Failed =>
          AppendNil(worklist);
          AppendNil(buffer);
        case Fetched(text, content) =>
          if Contains(text, INDEX_MARKER) {
            var nested := ExtractSitemapsFromIndex(content);
            worklist := worklist + nested;
            AppendNil(buffer);
          } else {
            var urls := ExtractUrlsFromSitemap(content);
            buffer := buffer + urls;
            AppendNil(worklist);
            if |buffer| >= BATCH_SIZE {
              ProcessKeepsSteady(web, base, s.processed, head, s.buffer, s.n, s.lines, s.files);
              FlushBatch();
            }
          }
      }
    }

    /** Lines 64-95 until the worklist is empty or, after `fuel`
        iterations, an interrupt arrives. */
    method Drain(fuel: nat) returns (interrupted: bool)
      requires Valid()
      modifies this
      ensures Valid()
      ensures Snapshot() == Run(web, old(Snapshot()), fuel)
      ensures (processed, worklist) == Walk(web, old(processed), old(worklist), fuel)
      ensures interrupted <==> worklist != []
    {
      var steps := 0;
      while worklist != [] && steps < fuel
        invariant Valid()
        invariant 0 <= steps <= fuel
        invariant Run(web, Snapshot(), fuel - steps) == Run(web, old(Snapshot()), fuel)
        decreases fuel - steps
      {
        Step();
        steps := steps + 1;
      }
      interrupted := worklist != [];
      RunIsWalk(web, old(Snapshot()), fuel);
    }

    /** Lines 98-104, and the same code at lines 108-114 on an interrupt:
        write what is left in the buffer, without any rotation. */
    method FinalFlush()
      requires Valid()
      modifies this`files, this`currentFileLines
      ensures buffer != [] ==> files == Write(old(files), fileCount, buffer)
      ensures buffer != [] ==> currentFileLines == old(currentFileLines) + |buffer|
      ensures buffer == [] ==> files == old(files) && currentFileLines == old(currentFileLines)
      ensures OutputInv(base, files, fileCount, currentFileLines)
      ensures Emitted(files, base, fileCount) == LeavesOf(web, processed)
    {
      FinalKeepsOutput(web, base, processed, buffer, fileCount, currentFileLines, files);
      if buffer != [] {
        currentFileLines, files := currentFileLines + |buffer|, Write(files, fileCount, buffer);
      }
    }
  }

  /** The whole script (lines 36-116) for a seed document, the disk at
      startup, the web, and an interrupt after `fuel` iterations unless the
      worklist empties first. Returns the disk afterwards, the file count
      of the closing summary, whether the run was interrupted, and (ghost)
      the references processed and those left waiting. */
  method Scrape(seed: ParseResult, disk: Disk, web: Web, fuel: nat)
    returns (out: Disk, fileCount: nat, interrupted: bool, ghost processed: seq<Url>, ghost pending: seq<Url>)
    ensures (out, fileCount) == Finish(Run(web, Initial(Extract(seed, SITEMAP_ENTRY), disk), fuel))
    ensures (processed, pending) == Walk(web, [], Extract(seed, SITEMAP_ENTRY), fuel)
    ensures processed + pending == Extract(seed, SITEMAP_ENTRY) + NestedOf(web, processed)
    ensures |processed| <= fuel
    ensures interrupted <==> pending != []
    ensures interrupted ==> |processed| == fuel
    ensures 1 <= fileCount
    ensures Consistent(out, disk - {1})
    ensures forall k :: k in out && !(1 <= k <= fileCount) ==> k in disk && k != 1 && out[k] == disk[k]
    ensures forall k :: 1 <= k < fileCount ==> MAX_LINES_PER_FILE <= |RunRows(out, disk - {1}, k)|
    ensures Emitted(out, disk - {1}, fileCount) == LeavesOf(web, processed)
    ensures (fileCount - 1) * MAX_LINES_PER_FILE <= |LeavesOf(web, processed)|
    ensures 1 in out <==> LeavesOf(web, processed) != []
  {
    var w := new Frontier(seed, disk, web);
    interrupted := w.Drain(fuel);
    ghost var last := w.Snapshot();
    w.FinalFlush();
    out, fileCount := w.files, w.fileCount;
    processed, pending := w.processed, w.worklist;
    RunOutput(disk, out, fileCount, w.currentFileLines, LeavesOf(web, processed));
    ghost var seeds := Extract(seed, SITEMAP_ENTRY);
    WalkBounds(web, [], seeds, fuel);
    assert [] + seeds == seeds + NestedOf(web, []);
    WalkKeepsFifo(web, seeds, [], seeds, fuel);
  }
}
