# Sitemap scraper, modelled in Dafny

The script `sitemap_scraper.py` starts from a sitemap index (`sitemap.xml`).
It walks the tree of nested sitemaps breadth-first, collects every page URL
the leaf sitemaps list, and writes the buffer to CSV files
`all_sitemap_urls_<k>.csv` once at least 1000 URLs are buffered. It moves
on to the next file once the current one has received 1,000,000 rows. This
project models that script. For every input it proves that the walker's
worklist, buffer, counters and files after each iteration, after the loop
and after the final flush are exactly those of a reference definition of
the loop, and it proves the order, conservation and output facts below
about that definition.

The project has six modules:

- `Sitemaps` (Sitemaps.dfy) holds the two extractors, `extract_sitemaps_from_index`
  and `extract_urls_from_sitemap`. They work over an abstract ElementTree:
  elements with an expanded tag `{namespace}local`, a text and child
  elements. `findall` becomes `Select`, `find` becomes `Locate`, and the
  extractors' loop is the method `ExtractLocs`, proved equal to the pure
  function `Extract`.
- `CsvOutput` (CsvOutput.dfy) holds the output files as a map from file
  index to lines. `Write` is the header-or-append `to_csv` call. The module
  also defines the rows a run has added to each file (`RunRows`), their
  concatenation over files 1..n (`Emitted`), and the output invariant
  `OutputInv`.
- `Traversal` (Traversal.dfy) holds the web as a map from URL to response
  and `Fetch`, which stands for `requests.get` followed by
  `raise_for_status` (lines 67-68). It also holds Python's substring test
  (`Contains`) and `Classify`, the three-way branch of one iteration. It also defines the references and leaf URLs a
  processing order produces (`NestedOf`, `LeavesOf`), and `Walk`, the
  reference definition of the processing order: the references popped and
  those left waiting after a given number of iterations. The state the walk
  keeps between statements is `SteadyState`, and one lemma per transition
  keeps it.
- `Loop` (Loop.dfy) holds the reference definition of the whole loop. Its
  state `LoopState` holds the references processed and waiting, the buffer,
  `file_count`, `current_file_lines` and the files. `Next` is one iteration
  (lines 64-95), `Flushed` the batched flush within it (lines 80-92), `Run`
  any number of iterations, and `Finish` the final flush with the file
  count that line 116 reports.
- `Walker` (Walker.dfy) holds the class `Frontier`, whose fields are the
  script's variables: `sitemaps_to_process`, `all_urls`, `file_count`,
  `current_file_lines` and the files. Its methods are the loop body and the
  flushes. `Scrape` is the whole script.
- `Seqs` (Seqs.dfy) holds the associativity of sequence concatenation,
  stated once for any element type.

The central facts are:

- **Whole state**: `Step` ends in exactly `Next` of the state it starts
  in, and `Drain` in exactly `Run`. `Scrape` returns exactly the files and
  file count that `Finish` gives after `Run` from the start state. So the
  split of rows across files and the reported file count are fixed
  (`OneBigLeaf` works one case out).
- **Order**: the references processed and left waiting are exactly those
  `Walk` gives (`RunIsWalk`).
- **FIFO**: `processed + worklist == seeds + NestedOf(web, processed)`, kept
  by every step of `Walk`.
  The references popped so far, followed by those still waiting, are the
  seed references followed by everything the popped indexes enqueued, in
  order.
- **Conservation**: `Emitted(files, base, fileCount) + buffer == LeavesOf(web, processed)`.
  The rows written in this run, file by file, followed by the buffer, are
  all leaf URLs found so far, in processing order.
- **Output state**: every file only grew. A header stands only at the head
  of a file the run created. Only files 1..`fileCount` changed. Every file
  before the current one holds at least 1,000,000 rows of this run. The
  counter equals the rows written to the current file.

The walk need not terminate, because a sitemap may list itself. `Scrape`
therefore takes a number of iterations (`fuel`) after which a keyboard
interrupt arrives. Normal completion and the interrupt share the same final
flush.

## Model

| member | source | states |
|---|---|---|
| Sitemaps.Select | sitemap_scraper.py:13 | findall returns at most the children it is given, and every element it returns carries the requested tag |
| Sitemaps.LocTexts | sitemap_scraper.py:13-15 | one `loc` text per entry, in order: the i-th text is the `loc` text of the i-th entry |
| Sitemaps.ExtractLocs | sitemap_scraper.py:8-19 | the loop that appends `loc` texts returns exactly `Extract(doc, entry)`; a parse error or an entry without `loc` gives [] |
| Sitemaps.ExtractSitemapsFromIndex | sitemap_scraper.py:7-19 | extract_sitemaps_from_index returns the index extraction `Extract(doc, "sitemap")` |
| Sitemaps.ExtractUrlsFromSitemap | sitemap_scraper.py:22-34 | extract_urls_from_sitemap returns the leaf extraction `Extract(doc, "url")` |
| Sitemaps.SelectAppend | sitemap_scraper.py:13 | findall keeps document order: selecting from a + b is selecting from a, then from b |
| Sitemaps.SelectEmpty | sitemap_scraper.py:13 | findall finds nothing exactly when no child has the tag (both directions) |
| Sitemaps.SelectHaveLoc | sitemap_scraper.py:13-14 | every selected entry has a `loc` child exactly when every child with the tag has one |
| Sitemaps.SelectAll | sitemap_scraper.py:13 | when every child carries the tag, findall returns all children |
| Sitemaps.LocateFirst | sitemap_scraper.py:14 | find returns the first element findall would return, or None when there is none |
| Sitemaps.WellFormedEntries | sitemap_scraper.py:11-16 | children that are all `loc`-carrying entries yield exactly one text per child, the i-th being the i-th child's `loc` text |
| Sitemaps.EntriesSingle | sitemap_scraper.py:11-15 | a single child yields its `loc` text if it is an `ns:<entry>` element, and nothing otherwise |
| Sitemaps.LocTextsAppend | sitemap_scraper.py:13-15 | the texts of two runs of entries are the texts of the first, then those of the second |
| Sitemaps.EntriesConcat | sitemap_scraper.py:11-16 | document order: the result for children a + b is the result for a followed by the result for b, when no entry lacks `loc` |
| Sitemaps.OtherChildIgnored | sitemap_scraper.py:11-15 | a child with another namespace or another local name changes nothing, wherever it stands |
| Sitemaps.ExtractEmpty | sitemap_scraper.py:8-19 | the result is [] exactly when the document does not parse, has no entry, or has an entry without `loc` (both directions) |
| CsvOutput.HeaderOnce | sitemap_scraper.py:81-85 | after any sequence of writes to file k, it holds its old lines (or the header alone, if the first write created it) followed by all batches in order; other files are unchanged |
| CsvOutput.WriteAllRunRows | sitemap_scraper.py:81-85 | a run that writes only the batches bs to file k adds exactly their concatenation as k's run rows, and keeps the disk consistent |
| CsvOutput.EmittedAgree | sitemap_scraper.py:79-86 | two disks whose files 1..n carry the same run rows emit the same rows |
| CsvOutput.WriteConsistent | sitemap_scraper.py:82-85 | a write keeps every file beginning with what it began with when the run started, or with the header if the run created it |
| CsvOutput.WriteRunRows | sitemap_scraper.py:82-85 | a write to file n adds exactly the written rows to file n's run rows, and changes no other file's |
| CsvOutput.WriteAppends | sitemap_scraper.py:82-85 | a write to the last file n appends exactly the written rows to everything emitted over files 1..n |
| CsvOutput.EmittedAtLeast | sitemap_scraper.py:89-92 | if files 1..n each hold at least the cap of run rows, at least n times the cap rows were emitted |
| CsvOutput.EmittedEmpty | sitemap_scraper.py:79-86 | nothing was emitted over files 1..n exactly when none of them has a run row (both directions) |
| CsvOutput.WriteKeepsOutput | sitemap_scraper.py:80-85 | writing a non-empty batch and counting it keeps OutputInv, and appends the batch to what was emitted |
| CsvOutput.RotateKeepsOutput | sitemap_scraper.py:89-92 | moving to file n + 1 with a zero counter, once the counter reached the cap, keeps OutputInv and emits nothing new |
| CsvOutput.FlushKeepsOutput | sitemap_scraper.py:79-92 | a batched flush, with rotation exactly when the counter reaches the cap, keeps OutputInv and moves the batch from the buffer to the files |
| CsvOutput.RunOutput | sitemap_scraper.py:97-116 | a finished run's files: consistent with the start, files outside 1..n untouched, earlier files at the cap, (n - 1) times the cap at most the URL count, and file 1 exists exactly when a URL was found |
| Traversal.ContainsOccurs | sitemap_scraper.py:69 | Python's `p in s` holds exactly when p occurs at some index of s (both directions) |
| Traversal.ClassifyBranches | sitemap_scraper.py:66-76 | the index branch is taken exactly when the fetch succeeded and the text contains `<sitemapindex`, the leaf branch exactly when it succeeded without it; each branch's list is its extractor's result |
| Traversal.ProcessOne | sitemap_scraper.py:65-76 | processing one more reference adds its outcome's references and URLs at the end |
| Traversal.PopKeepsFifo | sitemap_scraper.py:65-71 | popping the head and appending the references it enqueues at the tail keeps the FIFO invariant |
| Traversal.WalkBounds | sitemap_scraper.py:63-71 | k iterations process at most k more references, keep the earlier ones as a prefix, and process exactly k when references are still waiting |
| Traversal.WalkKeepsFifo | sitemap_scraper.py:63-71 | every prefix of the walk keeps the FIFO invariant: popped then waiting references are the seeds followed by what the popped indexes enqueued |
| Traversal.SelfListingNeverEnds | sitemap_scraper.py:63-71 | an index that lists only itself keeps itself waiting for any number of iterations, so the loop ends only by the interrupt |
| Traversal.StartSteady | sitemap_scraper.py:42-60 | the start state (nothing processed or buffered, file 1 removed and current, no lines) satisfies SteadyState |
| Traversal.ProcessKeepsSteady | sitemap_scraper.py:65-76 | processing one more reference keeps SteadyState: a leaf appends its URLs to the buffer, a failure or an index leaves the buffer as it was |
| Traversal.FlushKeepsSteady | sitemap_scraper.py:79-92 | a batched flush of a non-empty buffer keeps SteadyState with an empty buffer, rotating exactly when the new counter reaches the cap |
| Traversal.FinalKeepsOutput | sitemap_scraper.py:97-104 | the final flush, if the buffer is non-empty, keeps OutputInv; either way every leaf URL so far is then in the files, in order |
| Loop.NextFailed | sitemap_scraper.py:66-95 | an iteration whose fetch fails drops the reference and changes nothing else |
| Loop.RunIsWalk | sitemap_scraper.py:63-71 | the references any number of iterations process, and those they leave waiting, are exactly what `Walk` gives |
| Loop.NextKeepsInv | sitemap_scraper.py:64-95 | every iteration keeps the loop-head invariant: buffer below 1000, counter below the cap, output state and conservation |
| Loop.FlushedKeepsInv | sitemap_scraper.py:79-92 | a batched flush of a non-empty buffer leaves the loop-head invariant |
| Loop.RunKeepsInv | sitemap_scraper.py:63-95 | any number of iterations keeps the loop-head invariant |
| Loop.OneBigLeaf | sitemap_scraper.py:36-116 | a seed listing one leaf of at least 1,000,000 URLs ends with all of them in file 1 and a reported file count of 2 |
| Walker.Frontier.constructor | sitemap_scraper.py:42-60 | the walk starts with the seed index's references, an empty buffer, file 1 current with no lines, and file 1 removed from the disk |
| Walker.Frontier.FlushBatch | sitemap_scraper.py:79-92 | the fields end as `Flushed` says: the whole buffer is written to the current file and cleared; `file_count` goes up by one and the counter goes to 0 exactly when the counter plus the batch reaches 1,000,000, otherwise the counter grows by the batch; the loop-head invariant then holds |
| Walker.Frontier.Step | sitemap_scraper.py:64-95 | one iteration ends in exactly `Next` of the state it started in: the head popped, an index's references appended at the tail, a failed fetch dropped, a leaf's URLs buffered and flushed once the buffer reaches 1000; the loop-head invariant (buffer below 1000, counter below the cap, conservation) is kept |
| Walker.Frontier.Drain | sitemap_scraper.py:63-95 | the loop ends in exactly the state `Run` gives for `fuel` iterations, so its processed and waiting references are what `Walk` gives; it was interrupted exactly when references are still waiting; the loop-head invariant is kept |
| Walker.Frontier.FinalFlush | sitemap_scraper.py:97-114 | the remaining buffer is written only if non-empty, with no rotation; afterwards the files hold every leaf URL in processing order |
| Walker.Scrape | sitemap_scraper.py:36-116 | the files and the reported file count are exactly `Finish` of `Run` from the start state; the references processed are exactly what `Walk` gives; for either exit, normal or interrupted, the rows of files 1..`file_count` concatenated are all leaf URLs in processing order; FIFO order holds; earlier files hold the cap; untouched files keep their content; file 1 exists exactly when a URL was found |

## Left out

- HTTP (`requests.get`, `raise_for_status`, lines 67-68) is a fixed map `Web` from URL to response. A response is `Failed` or `Fetched(text, parse of the content)`. A URL the map lacks fails to fetch. Every run fetches finitely many URLs, so this loses no behaviour of a run. Responses that change between two fetches of the same URL are not modelled.
- XML parsing (`ET.fromstring`) is foreign; its result is an input, `Parsed(root) | ParseError`. Only the root's children and their `loc` child are modelled, not the rest of ElementTree.
- ElementTree's `None` text for an empty `<loc/>` is the empty string. In a leaf sitemap the script puts `None` in the list, which pandas writes as an empty field, as the model writes "". In an index the script enqueues `None` (line 71), `requests.get(None)` raises (line 67), and the handler at line 94 skips the reference. The model enqueues "", and `Fetch` fails on "" whatever the web holds, so that reference is skipped too.
- pandas and the filesystem: a file is a sequence of lines, with the header line `URL` followed by one line per URL. CSV quoting, encoding and newline handling are not modelled.
- Writes are assumed to succeed. In the script, an exception from the batched flush at line 83 or 85 is caught by the handler at line 94 after line 81 has already raised the counter. That failure path is not modelled.
- Reading the seed file (lines 37-39) is left out. The model takes the seed's parse result as input.
- `KeyboardInterrupt` is asynchronous in the script. Here it arrives only between iterations, after `fuel` iterations, and is followed by the same final flush as normal completion.
- Console output (`print`, lines 18, 33, 43, 72, 76, 95, 107, 116) is not modelled.

## Notes on the code

- An error from the batched flush is caught by the per-sitemap handler at line 94, and the run goes on with the next reference. Only an error in the final flush would end the script. The model covers writes that succeed.
- No file has an upper bound on its rows. One leaf sitemap can list any number of URLs, and they all go into one flush. The model proves the lower bound (`Scrape`: every file before the last holds at least 1,000,000 run rows) and no upper bound.
