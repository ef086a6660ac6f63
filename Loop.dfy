/** The script's loop (sitemap_scraper.py, lines 42-116) as a reference
    definition over values: its variables as one state, one iteration as a
    function of that state, any number of iterations, and the final flush.
    The walker's methods are proved to follow it. */
module Loop {
  import opened Sitemaps
  import opened CsvOutput
  import opened Traversal
  import opened Seqs

  /** The variables of the script's loop as one value: the references
      processed so far and those waiting (`sitemaps_to_process`), the
      buffer (`all_urls`), `file_count`, `current_file_lines` and the
      files. */
  datatype LoopState = LoopState(processed: seq<Url>, worklist: seq<Url>, buffer: seq<Url>,
                                 n: nat, lines: nat, files: Disk)

  /** Lines 42-60: the seed's references waiting, nothing processed or
      buffered, file 1 current with no lines, and file 1 removed. */
  function Initial(seeds: seq<Url>, disk: Disk): LoopState {
    LoopState([], seeds, [], 1, 0, disk - {1})
  }

  /** One iteration of lines 64-95 as a reference definition: pop the
      head and fetch it; an index appends its references at the tail; a
      leaf appends its URLs to the buffer and, once it holds a batch,
      writes it to the current file, moving on to the next file when the
      counter reaches the cap; a failure changes nothing else. */
  function Next(web: Web, s: LoopState): LoopState
    requires s.worklist != []
  {
    var h := s.worklist[0];
    var o := Classify(Fetch(web, h));
    var ps, ws, b := s.processed + [h], s.worklist[1..] + Enqueued(o), s.buffer + Buffered(o);
    if o.Leaf? && |b| >= BATCH_SIZE then Flushed(ps, ws, b, s.n, s.lines, s.files)
    else LoopState(ps, ws, b, s.n, s.lines, s.files)
  }

  /** Lines 80-92 within an iteration: the batch `b` is written to file n,
      the buffer is cleared, and the next file becomes current once file n
      holds the cap. */
  function Flushed(ps: seq<Url>, ws: seq<Url>, b: seq<Url>, n: nat, lines: nat, files: Disk): LoopState {
    var f, l := Write(files, n, b), lines + |b|;
    if l >= MAX_LINES_PER_FILE then LoopState(ps, ws, [], n + 1, 0, f)
    else LoopState(ps, ws, [], n, l, f)
  }

  /** Lines 66-67 and 94-95: a reference whose fetch fails is dropped and
      nothing else changes. */
  lemma NextFailed(web: Web, s: LoopState)
    requires s.worklist != [] && Fetch(web, s.worklist[0]).Failed?
    ensures Next(web, s) == s.(processed := s.processed + [s.worklist[0]], worklist := s.worklist[1..])
  {
  }

  /** `k` iterations of the loop, or fewer if the worklist runs empty. */
  function Run(web: Web, s: LoopState, k: nat): LoopState
    decreases k
  {
    if k == 0 || s.worklist == [] then s else Run(web, Next(web, s), k - 1)
  }

  /** Lines 97-104 (and 108-114 on an interrupt): write what is left in the
      buffer, if anything, without rotating; the files afterwards and the
      file count that line 116 reports. */
  function Finish(s: LoopState): (Disk, nat) {
    (if s.buffer != [] then Write(s.files, s.n, s.buffer) else s.files, s.n)
  }

  /** The state at every loop head: steady, and less than a batch buffered. */
  ghost predicate LoopInv(web: Web, base: Disk, s: LoopState) {
    SteadyState(web, base, s.processed, s.buffer, s.n, s.lines, s.files) && |s.buffer| < BATCH_SIZE
  }

  /** The loop's order is the walk's: the references `k` iterations
      process, and those they leave waiting, are what `Walk` gives. */
  lemma {:induction false} RunIsWalk(web: Web, s: LoopState, k: nat)
    ensures (Run(web, s, k).processed, Run(web, s, k).worklist) == Walk(web, s.processed, s.worklist, k)
    decreases k
  {
    if k != 0 && s.worklist != [] {
      RunIsWalk(web, Next(web, s), k - 1);
    }
  }

  /** Every iteration keeps the loop-head invariant. */
  lemma NextKeepsInv(web: Web, base: Disk, s: LoopState)
    requires LoopInv(web, base, s) && s.worklist != []
    ensures LoopInv(web, base, Next(web, s))
  {
    var h := s.worklist[0];
    var o := Classify(Fetch(web, h));
    var ps, ws := s.processed + [h], s.worklist[1..] + Enqueued(o);
    ProcessKeepsSteady(web, base, s.processed, h, s.buffer, s.n, s.lines, s.files);
    if o.Leaf? {
      if |s.buffer + o.urls| >= BATCH_SIZE {
        FlushedKeepsInv(web, base, ps, ws, s.buffer + o.urls, s.n, s.lines, s.files);
      }
    } else {
      AppendNil(s.buffer);
    }
  }

  /** A flush within an iteration leaves the loop-head invariant. */
  lemma FlushedKeepsInv(web: Web, base: Disk, ps: seq<Url>, ws: seq<Url>,
                        b: seq<Url>, n: nat, lines: nat, files: Disk)
    requires SteadyState(web, base, ps, b, n, lines, files) && b != []
    ensures LoopInv(web, base, Flushed(ps, ws, b, n, lines, files))
  {
    FlushKeepsSteady(web, base, ps, b, n, lines, files);
  }

  /** Any number of iterations keeps the loop-head invariant. */
  lemma {:induction false} RunKeepsInv(web: Web, base: Disk, s: LoopState, k: nat)
    requires LoopInv(web, base, s)
    ensures LoopInv(web, base, Run(web, s, k))
    decreases k
  {
    if k != 0 && s.worklist != [] {
      NextKeepsInv(web, base, s);
      RunKeepsInv(web, base, Next(web, s), k - 1);
    }
  }

  /** Rotation is forced: a seed listing a single leaf of at least the cap
      of URLs ends with all of them in file 1 and a file count of 2, as
      line 89 moves on right after the one flush and line 98 then has
      nothing left to write. */
  lemma OneBigLeaf(web: Web, a: Url, urls: seq<Url>, disk: Disk, fuel: nat)
    requires Classify(Fetch(web, a)) == Leaf(urls) && |urls| >= MAX_LINES_PER_FILE && fuel >= 1
    ensures Finish(Run(web, Initial([a], disk), fuel)) == (Write(disk - {1}, 1, urls), 2)
  {
    var s := Initial([a], disk);
    var s' := Next(web, s);
    assert [] + urls == urls;
    assert s' == LoopState([a], [], [], 2, 0, Write(disk - {1}, 1, urls));
    assert Run(web, s, fuel) == Run(web, s', fuel - 1);
  }
}
