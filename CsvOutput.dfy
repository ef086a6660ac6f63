/** The output side of the scraper: the CSV files all_sitemap_urls_<k>.csv
    as an in-memory disk, the header-or-append write that every flush does
    (sitemap_scraper.py, lines 80-85, 99-104 and 109-114), and the rows a
    run has added to each file. Writes are assumed to succeed. */
module CsvOutput {
  import opened Seqs

  type Url = string

  /** The single column name, written as the first line of a new file. */
  const HEADER: string := "URL"

  /** The row count at which the scraper moves on to the next file. */
  const MAX_LINES_PER_FILE: nat := 1_000_000

  /** File index k to the lines of all_sitemap_urls_<k>.csv; a key is
      present exactly when that file exists. */
  type Disk = map<nat, seq<string>>

  /** DataFrame.to_csv for one batch: an existing file gets the rows
      appended without a header, a missing one is created with the header
      line followed by the rows. */
  function Write(disk: Disk, k: nat, rows: seq<Url>): Disk {
    if k in disk then disk[k := disk[k] + rows] else disk[k := [HEADER] + rows]
  }

  /** The batches `bs`, concatenated in order. */
  function Flatten(bs: seq<seq<Url>>): seq<Url>
    decreases |bs|
  {
    if bs == [] then [] else Flatten(bs[..|bs| - 1]) + bs[|bs| - 1]
  }

  /** The batches `bs` written one after the other to file k. */
  function WriteAll(disk: Disk, k: nat, bs: seq<seq<Url>>): Disk
    decreases |bs|
  {
    if bs == [] then disk else Write(WriteAll(disk, k, bs[..|bs| - 1]), k, bs[|bs| - 1])
  }

  /** Header once: however many batches go to file k, the header line
      stands only at its head, and only when the first write created the
      file; the batches follow in order, and no other file changes. */
  lemma {:induction false} HeaderOnce(disk: Disk, k: nat, bs: seq<seq<Url>>)
    requires bs != [] || k in disk
    ensures k in WriteAll(disk, k, bs)
    ensures WriteAll(disk, k, bs)[k] == (if k in disk then disk[k] else [HEADER]) + Flatten(bs)
    ensures forall j :: j != k ==> (j in WriteAll(disk, k, bs) <==> j in disk)
    ensures forall j :: j != k && j in disk ==> WriteAll(disk, k, bs)[j] == disk[j]
    decreases |bs|
  {
    if bs != [] {
      var front, b := bs[..|bs| - 1], bs[|bs| - 1];
      var p := if k in disk then disk[k] else [HEADER];
      if front != [] || k in disk {
        HeaderOnce(disk, k, front);
        AppendAssoc(p, Flatten(front), b);
      }
    }
  }

  /** What file k began with, as far as a run is concerned: its content when
      the run started, or the header line alone when the run creates it. */
  function PrefixOf(base: Disk, k: nat): seq<string> {
    if k in base then base[k] else [HEADER]
  }

  /** `s` begins with the lines `p`. */
  predicate BeginsWith(s: seq<string>, p: seq<string>) {
    |p| <= |s| && s[..|p|] == p
  }

  /** `disk` is what writes made of `base`: nothing was deleted and every file
      still begins with its prefix, so a header stands only at the head of a
      file the run created. */
  ghost predicate Consistent(disk: Disk, base: Disk) {
    && base.Keys <= disk.Keys
    && forall k :: k in disk ==> BeginsWith(disk[k], PrefixOf(base, k))
  }

  /** The data rows a run has added to file k. */
  function RunRows(disk: Disk, base: Disk, k: nat): seq<Url> {
    if k in disk && BeginsWith(disk[k], PrefixOf(base, k)) then disk[k][|PrefixOf(base, k)|..] else []
  }

  /** A run that writes only the batches `bs` to file k, starting from the
      disk it found, adds exactly their concatenation to file k and keeps
      the disk consistent. */
  lemma {:induction false} WriteAllRunRows(base: Disk, k: nat, bs: seq<seq<Url>>)
    ensures Consistent(WriteAll(base, k, bs), base)
    ensures RunRows(WriteAll(base, k, bs), base, k) == Flatten(bs)
  {
    if bs != [] {
      HeaderOnce(base, k, bs);
      var d := WriteAll(base, k, bs);
      assert d[k][..|PrefixOf(base, k)|] == PrefixOf(base, k);
      assert d[k][|PrefixOf(base, k)|..] == Flatten(bs);
    }
  }

  /** The rows a run has added to files 1..n, concatenated in file order. */
  function Emitted(disk: Disk, base: Disk, n: nat): seq<Url> {
    if n == 0 then [] else Emitted(disk, base, n - 1) + RunRows(disk, base, n)
  }

  /** Two disks whose files 1..n hold the same run rows emit the same. */
  lemma {:induction false} EmittedAgree(d1: Disk, d2: Disk, base: Disk, n: nat)
    requires forall k :: 1 <= k <= n ==> RunRows(d1, base, k) == RunRows(d2, base, k)
    ensures Emitted(d1, base, n) == Emitted(d2, base, n)
  {
    if n > 0 {
      EmittedAgree(d1, d2, base, n - 1);
    }
  }

  /** A write keeps a disk consistent: the rows are appended after what the
      file already holds, and the header goes only into a file the write
      creates. */
  lemma WriteConsistent(disk: Disk, base: Disk, n: nat, rows: seq<Url>)
    requires Consistent(disk, base)
    ensures Consistent(Write(disk, n, rows), base)
  {
  }

  /** A write to file n adds exactly the written rows to what file n holds
      for the run and leaves every other file as it was. */
  lemma WriteRunRows(disk: Disk, base: Disk, n: nat, rows: seq<Url>)
    requires Consistent(disk, base)
    ensures RunRows(Write(disk, n, rows), base, n) == RunRows(disk, base, n) + rows
    ensures forall k :: k != n ==> RunRows(Write(disk, n, rows), base, k) == RunRows(disk, base, k)
  {
  }

  /** A write to the last file n appends exactly the written rows to
      everything emitted up to n. */
  lemma WriteAppends(disk: Disk, base: Disk, n: nat, rows: seq<Url>)
    requires Consistent(disk, base)
    requires 1 <= n
    ensures Emitted(Write(disk, n, rows), base, n) == Emitted(disk, base, n) + rows
  {
    var d := Write(disk, n, rows);
    var e, r := Emitted(disk, base, n - 1), RunRows(disk, base, n);
    assert Emitted(d, base, n - 1) == e by {
      WriteRunRows(disk, base, n, rows);
      EmittedAgree(d, disk, base, n - 1);
    }
    assert RunRows(d, base, n) == r + rows by {
      WriteRunRows(disk, base, n, rows);
    }
    AppendAssoc(e, r, rows);
  }

  /** When files 1..n each hold at least the cap for the run, at least n
      times the cap rows were emitted. */
  lemma {:induction false} EmittedAtLeast(disk: Disk, base: Disk, n: nat)
    requires forall k :: 1 <= k <= n ==> MAX_LINES_PER_FILE <= |RunRows(disk, base, k)|
    ensures n * MAX_LINES_PER_FILE <= |Emitted(disk, base, n)|
  {
    if n > 0 {
      EmittedAtLeast(disk, base, n - 1);
    }
  }

  /** Nothing emitted up to n means no run rows in any of files 1..n. */
  lemma {:induction false} EmittedEmpty(disk: Disk, base: Disk, n: nat)
    ensures Emitted(disk, base, n) == [] <==> forall k :: 1 <= k <= n ==> RunRows(disk, base, k) == []
  {
    if n > 0 {
      EmittedEmpty(disk, base, n - 1);
    }
  }

  /** The output state of a run that started from `base`, with `n` the
      current file index (file_count) and `lines` the rows the run wrote to
      it (current_file_lines). */
  ghost predicate OutputInv(base: Disk, files: Disk, n: nat, lines: nat) {
    && 1 <= n
    && Consistent(files, base)
    // files other than 1..n are as they were at startup
    && (forall k :: k in files && !(1 <= k <= n) ==> k in base && files[k] == base[k])
    // a file is created only by a write of some rows
    && (forall k :: k in files && k !in base ==> RunRows(files, base, k) != [])
    && lines == |RunRows(files, base, n)|
    // a file is left behind only once it has reached the cap
    && (forall k :: 1 <= k < n ==> MAX_LINES_PER_FILE <= |RunRows(files, base, k)|)
  }

  /** Writing a non-empty batch to the current file and counting its rows
      keeps the output state, and appends the batch to what was emitted. */
  lemma WriteKeepsOutput(base: Disk, files: Disk, n: nat, lines: nat, rows: seq<Url>)
    requires OutputInv(base, files, n, lines) && rows != []
    ensures OutputInv(base, Write(files, n, rows), n, lines + |rows|)
    ensures Emitted(Write(files, n, rows), base, n) == Emitted(files, base, n) + rows
  {
    WriteConsistent(files, base, n, rows);
    WriteRunRows(files, base, n, rows);
    WriteAppends(files, base, n, rows);
  }

  /** Moving on to file n + 1 with a zero count, once the current file has
      reached the cap, keeps the output state and emits nothing new. */
  lemma RotateKeepsOutput(base: Disk, files: Disk, n: nat, lines: nat)
    requires OutputInv(base, files, n, lines) && MAX_LINES_PER_FILE <= lines
    ensures OutputInv(base, files, n + 1, 0)
    ensures Emitted(files, base, n + 1) == Emitted(files, base, n)
  {
  }

  /** Lines 80-92 on the output state: a non-empty batch is written to the
      current file and counted, and the run moves on to a fresh file once
      the count reaches the cap. The output state is kept, and what was
      emitted before, followed by the batch, is what is emitted after. */
  lemma FlushKeepsOutput(base: Disk, files: Disk, n: nat, lines: nat, rows: seq<Url>, total: seq<Url>)
    requires OutputInv(base, files, n, lines) && rows != []
    requires Emitted(files, base, n) + rows == total
    ensures var f, l := Write(files, n, rows), lines + |rows|;
      if MAX_LINES_PER_FILE <= l then OutputInv(base, f, n + 1, 0) && Emitted(f, base, n + 1) == total
      else OutputInv(base, f, n, l) && Emitted(f, base, n) == total
  {
    var f, l := Write(files, n, rows), lines + |rows|;
    WriteKeepsOutput(base, files, n, lines, rows);
    if MAX_LINES_PER_FILE <= l {
      RotateKeepsOutput(base, f, n, l);
    }
  }

  /** What a finished run leaves on a disk it started from, once file 1 was
      removed from it: files only grew, by their run rows; files outside
      1..n are those of the disk other than file 1; every file before the
      last holds the cap; and file 1 exists exactly when a URL was found. */
  lemma RunOutput(disk: Disk, out: Disk, n: nat, lines: nat, leaves: seq<Url>)
    requires OutputInv(disk - {1}, out, n, lines) && Emitted(out, disk - {1}, n) == leaves
    ensures Consistent(out, disk - {1})
    ensures forall k :: k in out && !(1 <= k <= n) ==> k in disk && k != 1 && out[k] == disk[k]
    ensures forall k :: 1 <= k < n ==> MAX_LINES_PER_FILE <= |RunRows(out, disk - {1}, k)|
    ensures (n - 1) * MAX_LINES_PER_FILE <= |leaves|
    ensures 1 in out <==> leaves != []
  {
    var base := disk - {1};
    EmittedAtLeast(out, base, n - 1);
    EmittedEmpty(out, base, n);
    assert |Emitted(out, base, n - 1)| <= |Emitted(out, base, n)|;
    if 1 < n {
      assert MAX_LINES_PER_FILE <= |RunRows(out, base, 1)|;
    }
  }
}
