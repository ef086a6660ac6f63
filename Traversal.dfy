/** What the frontier walk of the scraper (sitemap_scraper.py, lines 41-116)
    does with each reference it pops, as values: the classification of a
    response, the references and URLs a processing order produces, and the
    state the walk keeps between statements. The web is a fixed map
    from URL to response. */
module Traversal {
  import opened Sitemaps
  import opened CsvOutput
  import opened Seqs

  /** Flush once the buffer holds at least this many URLs. */
  const BATCH_SIZE: nat := 1000

  /** The substring whose presence in a response marks a sitemap index. */
  const INDEX_MARKER: string := "<sitemapindex"

  /** What requests.get followed by raise_for_status gives: an exception
      (transport error or non-success status), or the decoded text and
      the parse of the raw content. */
  datatype Response = Failed | Fetched(text: string, content: ParseResult)

  /** The web as the run sees it: the response to each URL it may fetch.
      A URL outside the map fails like an unreachable host. */
  type Web = map<Url, Response>

  /** requests.get(url) followed by raise_for_status. The empty reference,
      which stands for the `None` of an empty `<loc/>`, is no URL at all
      and always fails. */
  function Fetch(web: Web, u: Url): Response {
    if u != "" && u in web then web[u] else Failed
  }

  /** What one iteration makes of the reference it pops. */
  datatype Outcome = Skipped | Index(refs: seq<Url>) | Leaf(urls: seq<Url>)

  /** `p` occurs in `s` starting at index i. */
  ghost predicate OccursAt(s: string, p: string, i: int) {
    0 <= i && i + |p| <= |s| && s[i..i + |p|] == p
  }

  /** Python's `p in s` on strings. */
  function Contains(s: string, p: string): bool
    decreases |s|
  {
    if |p| > |s| then false
    else if s[..|p|] == p then true
    else Contains(s[1..], p)
  }

  /** `p in s` holds exactly when `p` occurs somewhere in `s`. */
  lemma {:induction false} ContainsOccurs(s: string, p: string)
    ensures Contains(s, p) <==> exists i :: OccursAt(s, p, i)
    decreases |s|
  {
    if |p| > |s| {
    } else if s[..|p|] == p {
      assert OccursAt(s, p, 0);
    } else {
      ContainsOccurs(s[1..], p);
      if Contains(s[1..], p) {
        var i :| OccursAt(s[1..], p, i);
        assert s[1..][i..i + |p|] == s[i + 1..i + 1 + |p|];
        assert OccursAt(s, p, i + 1);
      }
      if exists i :: OccursAt(s, p, i) {
        var i :| OccursAt(s, p, i);
        assert i != 0;
        assert s[1..][i - 1..i - 1 + |p|] == s[i..i + |p|];
        assert OccursAt(s[1..], p, i - 1);
      }
    }
  }

  /** The branch of lines 66-76: a failed fetch is dropped, a body that
      contains the marker is read as an index, every other body as a leaf. */
  function Classify(r: Response): Outcome {
    match r
    case Failed => Skipped
    case Fetched(text, content) =>
      if Contains(text, INDEX_MARKER) then Index(Extract(content, SITEMAP_ENTRY))
      else Leaf(Extract(content, URL_ENTRY))
  }

  /** The index branch is taken exactly when the fetch succeeded and the
      text holds the marker; its references are the index extraction of the
      content, and a leaf's URLs the leaf extraction. */
  lemma ClassifyBranches(r: Response)
    ensures Classify(r).Index? <==> r.Fetched? && exists i :: OccursAt(r.text, INDEX_MARKER, i)
    ensures Classify(r).Leaf? <==> r.Fetched? && !exists i :: OccursAt(r.text, INDEX_MARKER, i)
    ensures Classify(r).Index? ==> Classify(r).refs == Extract(r.content, SITEMAP_ENTRY)
    ensures Classify(r).Leaf? ==> Classify(r).urls == Extract(r.content, URL_ENTRY)
  {
    if r.Fetched? {
      ContainsOccurs(r.text, INDEX_MARKER);
    }
  }

  /** References an outcome appends to the worklist. */
  function Enqueued(o: Outcome): seq<Url> {
    if o.Index? then o.refs else []
  }

  /** URLs an outcome appends to the buffer. */
  function Buffered(o: Outcome): seq<Url> {
    if o.Leaf? then o.urls else []
  }

  /** All references enqueued by processing `ps` in order. */
  function NestedOf(web: Web, ps: seq<Url>): seq<Url>
    decreases |ps|
  {
    if ps == [] then []
    else NestedOf(web, ps[..|ps| - 1]) + Enqueued(Classify(Fetch(web, ps[|ps| - 1])))
  }

  /** All leaf URLs collected by processing `ps` in order. */
  function LeavesOf(web: Web, ps: seq<Url>): seq<Url>
    decreases |ps|
  {
    if ps == [] then []
    else LeavesOf(web, ps[..|ps| - 1]) + Buffered(Classify(Fetch(web, ps[|ps| - 1])))
  }

  /** The order of lines 64-71 as a reference definition: from `ps`
      processed and `ws` waiting, pop the head and append what it enqueues
      at the tail, `k` times or until nothing waits; the references
      processed then, and those still waiting. */
  function Walk(web: Web, ps: seq<Url>, ws: seq<Url>, k: nat): (seq<Url>, seq<Url>)
    decreases k
  {
    if k == 0 || ws == [] then (ps, ws)
    else Walk(web, ps + [ws[0]], ws[1..] + Enqueued(Classify(Fetch(web, ws[0]))), k - 1)
  }

  /** A walk only extends what was processed, by at most `k` references;
      exactly `k` unless the worklist runs empty. */
  lemma {:induction false} WalkBounds(web: Web, ps: seq<Url>, ws: seq<Url>, k: nat)
    ensures |ps| <= |Walk(web, ps, ws, k).0| <= |ps| + k
    ensures Walk(web, ps, ws, k).0[..|ps|] == ps
    ensures Walk(web, ps, ws, k).1 != [] ==> |Walk(web, ps, ws, k).0| == |ps| + k
    decreases k
  {
    if k != 0 && ws != [] {
      var ps', ws' := ps + [ws[0]], ws[1..] + Enqueued(Classify(Fetch(web, ws[0])));
      WalkBounds(web, ps', ws', k - 1);
      assert Walk(web, ps, ws, k).0[..|ps'|][..|ps|] == ps;
    }
  }

  /** FIFO along a walk: what was processed, then what waits, stays the
      seeds followed by everything the processed references enqueued. */
  lemma {:induction false} WalkKeepsFifo(web: Web, seeds: seq<Url>, ps: seq<Url>, ws: seq<Url>, k: nat)
    requires ps + ws == seeds + NestedOf(web, ps)
    ensures Walk(web, ps, ws, k).0 + Walk(web, ps, ws, k).1 == seeds + NestedOf(web, Walk(web, ps, ws, k).0)
    decreases k
  {
    if k != 0 && ws != [] {
      PopKeepsFifo(web, seeds, ps, ws);
      WalkKeepsFifo(web, seeds, ps + [ws[0]], ws[1..] + Enqueued(Classify(Fetch(web, ws[0]))), k - 1);
    }
  }

  /** No dedup: a sitemap index that lists only itself keeps the worklist
      non-empty however many iterations run, so only an interrupt ends the
      walk. */
  lemma {:induction false} SelfListingNeverEnds(web: Web, x: Url, ps: seq<Url>, k: nat)
    requires Enqueued(Classify(Fetch(web, x))) == [x]
    ensures Walk(web, ps, [x], k).1 == [x]
    decreases k
  {
    if k != 0 {
      assert [x][1..] + [x] == [x];
      SelfListingNeverEnds(web, x, ps + [x], k - 1);
    }
  }

  /** Processing one more reference adds its outcome's references and URLs
      at the end. */
  lemma ProcessOne(web: Web, ps: seq<Url>, h: Url)
    ensures NestedOf(web, ps + [h]) == NestedOf(web, ps) + Enqueued(Classify(Fetch(web, h)))
    ensures LeavesOf(web, ps + [h]) == LeavesOf(web, ps) + Buffered(Classify(Fetch(web, h)))
  {
  }

  /** Popping the head of `ws` and appending `e` at its tail, when `ps + ws`
      was `seeds + n`, makes it `seeds + (n + e)`. */
  lemma PopAppend<T>(seeds: seq<T>, ps: seq<T>, ws: seq<T>, n: seq<T>, e: seq<T>)
    requires ps + ws == seeds + n && ws != []
    ensures (ps + [ws[0]]) + (ws[1..] + e) == seeds + (n + e)
  {
    assert [ws[0]] + ws[1..] == ws;
    assert (ps + [ws[0]]) + (ws[1..] + e) == (ps + ws) + e;
  }

  /** FIFO: when the references popped so far, followed by those waiting,
      are the seeds followed by everything enqueued, then popping the head
      and appending what it enqueues at the tail keeps it so. */
  lemma PopKeepsFifo(web: Web, seeds: seq<Url>, ps: seq<Url>, ws: seq<Url>)
    requires ps + ws == seeds + NestedOf(web, ps) && ws != []
    ensures (ps + [ws[0]]) + (ws[1..] + Enqueued(Classify(Fetch(web, ws[0]))))
         == seeds + NestedOf(web, ps + [ws[0]])
  {
    ProcessOne(web, ps, ws[0]);
    PopAppend(seeds, ps, ws, NestedOf(web, ps), Enqueued(Classify(Fetch(web, ws[0]))));
  }

  /** The state between statements of the loop body: the counter is below
      the cap, the files are as OutputInv says, and every leaf URL of the
      references processed so far is written or buffered, in order. */
  ghost predicate SteadyState(web: Web, base: Disk, processed: seq<Url>,
                              buffer: seq<Url>, n: nat, lines: nat, files: Disk)
  {
    && lines < MAX_LINES_PER_FILE
    && 1 !in base
    && OutputInv(base, files, n, lines)
    // conservation: written rows, then the buffer, are all leaf URLs so far
    && Emitted(files, base, n) + buffer == LeavesOf(web, processed)
  }

  /** A flush of a non-empty buffer keeps the state steady: the written
      batch moves from the buffer to the files, and the run moves on to the
      next file once the current one reaches the cap. */
  lemma FlushKeepsSteady(web: Web, base: Disk, processed: seq<Url>,
                         buffer: seq<Url>, n: nat, lines: nat, files: Disk)
    requires SteadyState(web, base, processed, buffer, n, lines, files) && buffer != []
    ensures var f, l := Write(files, n, buffer), lines + |buffer|;
      if MAX_LINES_PER_FILE <= l then SteadyState(web, base, processed, [], n + 1, 0, f)
      else SteadyState(web, base, processed, [], n, l, f)
  {
    FlushKeepsOutput(base, files, n, lines, buffer, LeavesOf(web, processed));
  }

  /** Lines 45-60: nothing processed, nothing buffered, and file 1 (removed
      if it existed) current with no lines. */
  lemma StartSteady(web: Web, disk: Disk)
    ensures SteadyState(web, disk - {1}, [], [], 1, 0, disk - {1})
  {
  }

  /** Processing the reference `h` keeps the state steady: a leaf appends
      its URLs to the buffer, and any other outcome leaves the buffer. */
  lemma ProcessKeepsSteady(web: Web, base: Disk, ps: seq<Url>, h: Url,
                           buffer: seq<Url>, n: nat, lines: nat, files: Disk)
    requires SteadyState(web, base, ps, buffer, n, lines, files)
    ensures var o := Classify(Fetch(web, h));
      && (o.Leaf? ==> SteadyState(web, base, ps + [h], buffer + o.urls, n, lines, files))
      && (!o.Leaf? ==> SteadyState(web, base, ps + [h], buffer, n, lines, files))
  {
    var o := Classify(Fetch(web, h));
    ProcessOne(web, ps, h);
    if o.Leaf? {
      AppendAssoc(Emitted(files, base, n), buffer, o.urls);
    }
  }

  /** Lines 98-104: writing what is left in the buffer, if anything, leaves
      every leaf URL found so far in the files, in order. */
  lemma FinalKeepsOutput(web: Web, base: Disk, processed: seq<Url>,
                         buffer: seq<Url>, n: nat, lines: nat, files: Disk)
    requires SteadyState(web, base, processed, buffer, n, lines, files)
    ensures buffer != [] ==> var f, l := Write(files, n, buffer), lines + |buffer|;
      OutputInv(base, f, n, l) && Emitted(f, base, n) == LeavesOf(web, processed)
    ensures buffer == [] ==> Emitted(files, base, n) == LeavesOf(web, processed)
  {
    if buffer != [] {
      WriteKeepsOutput(base, files, n, lines, buffer);
    }
  }
}
