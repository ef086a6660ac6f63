/** The two entry extractors of the scraper (sitemap_scraper.py, lines 7-34),
    over an abstract ElementTree: a parsed document is a root element whose
    direct children carry an expanded (namespaced) tag, a text and children.
    Parsing itself (ET.fromstring) is foreign and arrives as a ParseResult. */
module Sitemaps {

  /** The XML namespace of the Sitemaps protocol, schema 0.9. */
  const SITEMAP_NS: string := "http://www.sitemaps.org/schemas/sitemap/0.9"

  const SITEMAP_ENTRY: string := "sitemap"
  const URL_ENTRY: string := "url"

  /** An expanded element name, `{ns}local` in ElementTree's notation. */
  datatype QName = QName(ns: string, local: string)

  /** An element: its expanded tag, its text and its direct children in
      document order. ElementTree's `None` text (an element with no
      character data) is the empty string here. */
  datatype Element = Element(tag: QName, text: string, children: seq<Element>)

  /** What ET.fromstring produces: a root element, or an exception. */
  datatype ParseResult = Parsed(root: Element) | ParseError

  datatype Option<T> = None | Some(value: T)

  /** `ns:<entry>` with `ns` bound to the sitemap namespace. */
  function EntryTag(entry: string): QName {
    QName(SITEMAP_NS, entry)
  }

  const LOC_TAG: QName := EntryTag("loc")

  /** Element.findall on a plain tag: the direct children with tag `t`. */
  function Select(cs: seq<Element>, t: QName): (r: seq<Element>)
    ensures |r| <= |cs|
    ensures forall k :: 0 <= k < |r| ==> r[k].tag == t
  {
    if cs == [] then []
    else (if cs[0].tag == t then [cs[0]] else []) + Select(cs[1..], t)
  }

  /** Element.find on a plain tag: the first direct child with tag `t`. */
  function Locate(cs: seq<Element>, t: QName): Option<Element> {
    if cs == [] then None
    else if cs[0].tag == t then Some(cs[0])
    else Locate(cs[1..], t)
  }

  predicate HasLoc(e: Element) {
    Locate(e.children, LOC_TAG).Some?
  }

  /** `entry.find('ns:loc', namespace).text`, when the `loc` child exists. */
  function LocText(e: Element): string
    requires HasLoc(e)
  {
    Locate(e.children, LOC_TAG).value.text
  }

  predicate AllHaveLoc(es: seq<Element>) {
    forall k :: 0 <= k < |es| ==> HasLoc(es[k])
  }

  /** The `loc` texts of entries that all have one, in order. */
  function LocTexts(es: seq<Element>): (r: seq<string>)
    requires AllHaveLoc(es)
    ensures |r| == |es|
    ensures forall k :: 0 <= k < |es| ==> r[k] == LocText(es[k])
    decreases |es|
  {
    if es == [] then [] else LocTexts(es[..|es| - 1]) + [LocText(es[|es| - 1])]
  }

  /** The result of an extractor over the children of a parsed root: the
      `loc` text of every `ns:<entry>` child, or nothing at all as soon as
      one of them has no `loc` child (`.text` on None raises, and the
      handler discards partial results). */
  function EntriesIn(cs: seq<Element>, entry: string): seq<string> {
    var found := Select(cs, EntryTag(entry));
    if AllHaveLoc(found) then LocTexts(found) else []
  }

  /** What an extractor returns for a document. */
  function Extract(doc: ParseResult, entry: string): seq<string> {
    match doc
    case ParseError => []
    case Parsed(root) => EntriesIn(root.children, entry)
  }

  /** The shared body of extract_sitemaps_from_index and
      extract_urls_from_sitemap: a loop that appends one `loc` text per
      selected entry and gives up with [] on the first failure. */
  method ExtractLocs(doc: ParseResult, entry: string) returns (locs: seq<string>)
    ensures locs == Extract(doc, entry)
  {
    if doc.ParseError? {
      return [];
    }
    var found := Select(doc.root.children, EntryTag(entry));
    locs := [];
    for i := 0 to |found|
      invariant forall j :: 0 <= j < i ==> HasLoc(found[j])
      invariant locs == LocTexts(found[..i])
    {
      var loc := Locate(found[i].children, LOC_TAG);
      if loc.None? {
        return [];
      }
      assert found[..i + 1][..i] == found[..i];
      locs := locs + [loc.value.text];
    }
    assert found[..|found|] == found;
  }

  /** extract_sitemaps_from_index: the references of a sitemap index. */
  method ExtractSitemapsFromIndex(doc: ParseResult) returns (refs: seq<string>)
    ensures refs == Extract(doc, SITEMAP_ENTRY)
  {
    refs := ExtractLocs(doc, SITEMAP_ENTRY);
  }

  /** extract_urls_from_sitemap: the page URLs of a leaf sitemap. */
  method ExtractUrlsFromSitemap(doc: ParseResult) returns (urls: seq<string>)
    ensures urls == Extract(doc, URL_ENTRY)
  {
    urls := ExtractLocs(doc, URL_ENTRY);
  }

  /** Every `ns:<entry>` child has a `loc` child, so no `.text` raises. */
  predicate EntriesHaveLoc(cs: seq<Element>, entry: string) {
    forall k :: 0 <= k < |cs| && cs[k].tag == EntryTag(entry) ==> HasLoc(cs[k])
  }

  /** No child is an `ns:<entry>` element. */
  predicate NoEntries(cs: seq<Element>, entry: string) {
    forall k :: 0 <= k < |cs| ==> cs[k].tag != EntryTag(entry)
  }

  /** findall keeps document order: selecting from two runs of children
      selects from the first, then from the second. */
  lemma {:induction false} SelectAppend(a: seq<Element>, b: seq<Element>, t: QName)
    ensures Select(a + b, t) == Select(a, t) + Select(b, t)
    decreases |a|
  {
    if a == [] {
      assert a + b == b;
    } else {
      assert (a + b)[0] == a[0];
      assert (a + b)[1..] == a[1..] + b;
      SelectAppend(a[1..], b, t);
    }
  }

  /** findall finds nothing exactly when no child carries the tag. */
  lemma {:induction false} SelectEmpty(cs: seq<Element>, t: QName)
    ensures Select(cs, t) == [] <==> forall k :: 0 <= k < |cs| ==> cs[k].tag != t
    decreases |cs|
  {
    if cs != [] {
      SelectEmpty(cs[1..], t);
      assert forall k :: 1 <= k < |cs| ==> cs[k] == cs[1..][k - 1];
    }
  }

  /** Two runs of entries all have a `loc` child exactly when each does. */
  lemma AllHaveLocAppend(l: seq<Element>, r: seq<Element>)
    ensures AllHaveLoc(l + r) <==> AllHaveLoc(l) && AllHaveLoc(r)
  {
    assert forall k :: 0 <= k < |l| ==> (l + r)[k] == l[k];
    assert forall k :: 0 <= k < |r| ==> (l + r)[|l| + k] == r[k];
  }

  /** Every selected entry has a `loc` child exactly when every child with
      the tag has one. */
  lemma {:induction false} SelectHaveLoc(cs: seq<Element>, t: QName)
    ensures AllHaveLoc(Select(cs, t)) <==> forall k :: 0 <= k < |cs| && cs[k].tag == t ==> HasLoc(cs[k])
    decreases |cs|
  {
    if cs != [] {
      ghost var rest := cs[1..];
      SelectHaveLoc(rest, t);
      var h := if cs[0].tag == t then [cs[0]] else [];
      assert Select(cs, t) == h + Select(rest, t);
      AllHaveLocAppend(h, Select(rest, t));
      assert forall k :: 1 <= k < |cs| ==> cs[k] == rest[k - 1];
      assert (forall k :: 0 <= k < |cs| && cs[k].tag == t ==> HasLoc(cs[k])) <==>
        (cs[0].tag == t ==> HasLoc(cs[0])) && (forall k :: 0 <= k < |rest| && rest[k].tag == t ==> HasLoc(rest[k]));
    }
  }

  /** When every child is an entry, findall returns all the children. */
  lemma {:induction false} SelectAll(cs: seq<Element>, t: QName)
    requires forall k :: 0 <= k < |cs| ==> cs[k].tag == t
    ensures Select(cs, t) == cs
    decreases |cs|
  {
    if cs != [] {
      assert forall k :: 0 <= k < |cs| - 1 ==> cs[1..][k] == cs[k + 1];
      SelectAll(cs[1..], t);
    }
  }

  /** find returns the first of what findall returns, and None when that is empty. */
  lemma {:induction false} LocateFirst(cs: seq<Element>, t: QName)
    ensures Locate(cs, t) == if Select(cs, t) == [] then None else Some(Select(cs, t)[0])
    decreases |cs|
  {
    if cs != [] {
      LocateFirst(cs[1..], t);
    }
  }

  /** A well-formed document whose children are all `loc`-carrying entries
      yields exactly one text per child, in document order. */
  lemma WellFormedEntries(cs: seq<Element>, entry: string)
    requires forall k :: 0 <= k < |cs| ==> cs[k].tag == EntryTag(entry) && HasLoc(cs[k])
    ensures |EntriesIn(cs, entry)| == |cs|
    ensures forall k :: 0 <= k < |cs| ==> EntriesIn(cs, entry)[k] == LocText(cs[k])
  {
    SelectAll(cs, EntryTag(entry));
  }

  /** A single child contributes its `loc` text when it is an entry. */
  lemma EntriesSingle(c: Element, entry: string)
    requires c.tag != EntryTag(entry) || HasLoc(c)
    ensures EntriesIn([c], entry) == if c.tag == EntryTag(entry) then [LocText(c)] else []
  {
  }

  /** The `loc` texts of two runs of entries are those of the first
      followed by those of the second. */
  lemma LocTextsAppend(l: seq<Element>, r: seq<Element>)
    requires AllHaveLoc(l) && AllHaveLoc(r)
    ensures AllHaveLoc(l + r) && LocTexts(l + r) == LocTexts(l) + LocTexts(r)
  {
  }

  /** Document order: the entries of two runs of children are those of the
      first followed by those of the second, as long as nothing fails. */
  lemma EntriesConcat(a: seq<Element>, b: seq<Element>, entry: string)
    requires EntriesHaveLoc(a + b, entry)
    ensures EntriesIn(a + b, entry) == EntriesIn(a, entry) + EntriesIn(b, entry)
  {
    var t := EntryTag(entry);
    var l, r := Select(a, t), Select(b, t);
    SelectAppend(a, b, t);
    SelectHaveLoc(a + b, t);
    AllHaveLocAppend(l, r);
    LocTextsAppend(l, r);
  }

  /** A child outside the namespace, or with another local name, changes
      nothing wherever it stands. */
  lemma OtherChildIgnored(a: seq<Element>, c: Element, b: seq<Element>, entry: string)
    requires c.tag != EntryTag(entry)
    ensures EntriesIn(a + [c] + b, entry) == EntriesIn(a + b, entry)
  {
    var t := EntryTag(entry);
    SelectAppend(a + [c], b, t);
    SelectAppend(a, [c], t);
    SelectAppend(a, b, t);
    assert [c][1..] == [];
    assert Select([c], t) == [];
    assert Select(a + [c] + b, t) == Select(a + b, t);
  }

  /** An extractor returns nothing exactly when the document does not
      parse, has no entry at all, or has an entry without a `loc` child. */
  lemma ExtractEmpty(doc: ParseResult, entry: string)
    ensures Extract(doc, entry) == [] <==>
      (doc.ParseError?
       || NoEntries(doc.root.children, entry)
       || !EntriesHaveLoc(doc.root.children, entry))
  {
    if doc.Parsed? {
      var cs, t := doc.root.children, EntryTag(entry);
      SelectEmpty(cs, t);
      SelectHaveLoc(cs, t);
    }
  }
}
