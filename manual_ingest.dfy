/** The manual ingestion script (treinar.py): it keeps the pages of the PDF
    that have text, cuts each page's text into chunks and hands every chunk
    to the manual collection under a position-derived id, counting them.
    The PDF reader's `extract_text()` results are the input; the embedding
    call made for each chunk is external and its vector is not modelled. */
module ManualIngest {
  import opened Wrappers
  import opened Text
  import opened Slices
  import opened Metadata

  /** The defaults of `chunk_text(text, size=1000, overlap=150)`, which is all the script uses. */
  const ChunkSize: nat := 1000
  const ChunkOverlap: nat := 150

  /** A kept page: its 1-based number in the PDF and its cleaned text. */
  datatype Page = Page(number: nat, text: string)

  /** What is passed to the collection's `add` for one chunk (without its embedding). */
  datatype ManualRecord = ManualRecord(id: string, document: string, meta: Meta)

  /** `os.path.basename` on POSIX: the part after the last slash. */
  function Basename(path: string): (r: string)
    ensures |r| <= |path| && r == path[|path| - |r|..]
    ensures forall i | 0 <= i < |r| :: r[i] != '/'
    ensures |r| < |path| ==> path[|path| - |r| - 1] == '/'
    decreases |path|
  {
    if path == [] || path[|path| - 1] == '/' then []
    else Basename(path[..|path| - 1]) + [path[|path| - 1]]
  }

  /** `re.sub(r"\s+", " ", page.extract_text() or "").strip()`. */
  function PageText(extracted: Option<string>): string {
    Normalize(extracted.ValueOr(""))
  }

  /** The cleaned text of every page, in PDF order. */
  function Cleaned(extracted: seq<Option<string>>): (texts: seq<string>)
    ensures |texts| == |extracted|
  {
    seq(|extracted|, i requires 0 <= i < |extracted| => PageText(extracted[i]))
  }

  /** Page `n` (1-based) has non-empty cleaned text. */
  predicate HasText(texts: seq<string>, n: int) {
    1 <= n <= |texts| && texts[n - 1] != ""
  }

  /** The page numbers a list of kept pages holds. */
  function Numbers(pages: seq<Page>): set<nat> {
    set k | 0 <= k < |pages| :: pages[k].number
  }

  lemma NumbersAppend(pages: seq<Page>, p: Page)
    ensures Numbers(pages + [p]) == Numbers(pages) + {p.number}
  {
    var s := pages + [p];
    forall x | x in Numbers(pages) ensures x in Numbers(s) {
      var k :| 0 <= k < |pages| && pages[k].number == x;
      assert s[k] == pages[k];
    }
    assert s[|pages|] == p;
  }

  /** The pages kept from the cleaned texts, in order: those that are non-empty,
      numbered from 1. */
  function Kept(texts: seq<string>): seq<Page>
    decreases |texts|
  {
    if texts == [] then []
    else
      var n := |texts|;
      Kept(texts[..n - 1]) + (if texts[n - 1] != "" then [Page(n, texts[n - 1])] else [])
  }

  /** The loop that builds `pages`; blank or unreadable pages are skipped and
      do not stop the run. */
  method KeepPages(extracted: seq<Option<string>>) returns (pages: seq<Page>)
    ensures pages == Kept(Cleaned(extracted))
  {
    ghost var texts := Cleaned(extracted);
    pages := [];
    for i := 0 to |extracted|
      invariant pages == Kept(texts[..i])
    {
      var t := PageText(extracted[i]);
      assert t == texts[i];
      assert texts[..i + 1][..i] == texts[..i];
      if t != "" {
        pages := pages + [Page(i + 1, t)];
      }
    }
    assert texts[..|extracted|] == texts;
  }

  /** Every kept page has its 1-based number in range and its own text, which is non-empty. */
  lemma {:induction false} KeptText(texts: seq<string>)
    ensures forall k | 0 <= k < |Kept(texts)| ::
      1 <= Kept(texts)[k].number <= |texts| && Kept(texts)[k].text != ""
      && Kept(texts)[k].text == texts[Kept(texts)[k].number - 1]
    decreases |texts|
  {
    if texts != [] {
      var init := texts[..|texts| - 1];
      KeptText(init);
      assert forall k | 0 <= k < |init| :: init[k] == texts[k];
    }
  }

  /** Kept page numbers strictly increase. */
  lemma {:induction false} KeptIncreasing(texts: seq<string>)
    ensures forall a, b | 0 <= a < b < |Kept(texts)| :: Kept(texts)[a].number < Kept(texts)[b].number
    decreases |texts|
  {
    if texts != [] {
      var init := texts[..|texts| - 1];
      KeptIncreasing(init);
      KeptText(init);
    }
  }

  /** The kept page numbers are exactly the numbers of the pages with text. */
  lemma {:induction false} KeptComplete(texts: seq<string>)
    ensures Numbers(Kept(texts)) == set n | 1 <= n <= |texts| && HasText(texts, n)
    decreases |texts|
  {
    if texts != [] {
      var n := |texts|;
      var init := texts[..n - 1];
      KeptComplete(init);
      assert forall m | 1 <= m < n :: HasText(init, m) == HasText(texts, m);
      var before := set m | 1 <= m <= |init| && HasText(init, m);
      var after := set m | 1 <= m <= |texts| && HasText(texts, m);
      if texts[n - 1] != "" {
        NumbersAppend(Kept(init), Page(n, texts[n - 1]));
        assert after == before + {n};
      } else {
        assert Kept(texts) == Kept(init);
        assert after == before;
      }
    }
  }

  /** `chunk_text`. Because `start = max(end - overlap, end)` is always `end`,
      `overlap` has no effect: the chunks are the consecutive non-overlapping
      pieces of `size` characters, the last one possibly shorter. */
  method ChunkText(text: string, size: nat, overlap: nat) returns (out: seq<string>)
    requires size > 0
    ensures out == Windows(text, size)
    ensures Flatten(out) == text
    ensures forall k | 0 <= k < |out| :: 0 < |out[k]| <= size
    ensures forall k | 0 <= k < |out| - 1 :: |out[k]| == size
    ensures |out| == (|text| + size - 1) / size
    ensures forall k | 0 <= k < |out| :: k * size < |text| && out[k] == text[k * size .. Min((k + 1) * size, |text|)]
  {
    out := [];
    var start, L := 0, |text|;
    while start < L
      invariant 0 <= start <= L
      invariant out + Windows(text[start..], size) == Windows(text, size)
      decreases L - start
    {
      var end := Min(L, start + size);
      var rest := text[start..];
      if |rest| > size {
        assert rest[..size] == text[start..end] && rest[size..] == text[end..];
      } else {
        assert rest == text[start..end] && text[end..] == [];
      }
      out := out + [text[start..end]];
      start := Max(end - overlap, end);
    }
    assert text[start..] == [];
    FlattenWindows(text, size);
    WindowSizes(text, size);
    WindowCount(text, size);
    WindowsAreSlices(text, size);
  }

  /** `f"p{page_num:03d}-c{j:03d}"`. */
  function ChunkId(page: nat, j: nat): string {
    "p" + Padded(page, 3) + "-c" + Padded(j, 3)
  }

  /** `{"file": basename, "page": page_num}`. */
  function PageMeta(file: string, page: nat): Meta {
    map["file" := Str(file), "page" := Int(page)]
  }

  /** The records one page contributes: chunk `j` of the page under id `ChunkId(page, j)`. */
  function PageRecords(file: string, p: Page): seq<ManualRecord> {
    var parts := Windows(p.text, ChunkSize);
    seq(|parts|, j requires 0 <= j < |parts| => ManualRecord(ChunkId(p.number, j), parts[j], PageMeta(file, p.number)))
  }

  /** The records of a run over `pages`, in the order they are added. */
  function RunRecords(file: string, pages: seq<Page>): seq<ManualRecord>
    decreases |pages|
  {
    if pages == [] then []
    else RunRecords(file, pages[..|pages| - 1]) + PageRecords(file, pages[|pages| - 1])
  }

  /** The `(page, chunk index)` pair behind each record of a run. */
  function RunKeys(pages: seq<Page>): seq<(nat, nat)>
    decreases |pages|
  {
    if pages == [] then []
    else
      var p := pages[|pages| - 1];
      RunKeys(pages[..|pages| - 1]) + seq(|Windows(p.text, ChunkSize)|, j => (p.number, j))
  }

  /** The number of chunks over all pages. */
  function ChunkTotal(pages: seq<Page>): nat
    decreases |pages|
  {
    if pages == [] then 0
    else ChunkTotal(pages[..|pages| - 1]) + |Windows(pages[|pages| - 1].text, ChunkSize)|
  }

  /** One more page adds its records and its chunk count. */
  lemma RunSnoc(file: string, pages: seq<Page>, i: nat)
    requires i < |pages|
    ensures RunRecords(file, pages[..i + 1]) == RunRecords(file, pages[..i]) + PageRecords(file, pages[i])
    ensures ChunkTotal(pages[..i + 1]) == ChunkTotal(pages[..i]) + |Windows(pages[i].text, ChunkSize)|
  {
    assert pages[..i + 1][..i] == pages[..i];
  }

  /** The ingestion loop: every chunk of every kept page is added, and `total`
      counts them. */
  method Ingest(file: string, pages: seq<Page>) returns (added: seq<ManualRecord>, total: nat)
    ensures added == RunRecords(file, pages)
    ensures total == |added| == ChunkTotal(pages)
  {
    added, total := [], 0;
    for i := 0 to |pages|
      invariant added == RunRecords(file, pages[..i])
      invariant total == |added| == ChunkTotal(pages[..i])
    {
      var pageNum, text := pages[i].number, pages[i].text;
      var parts := ChunkText(text, ChunkSize, ChunkOverlap);
      ghost var before := added;
      ghost var mine := PageRecords(file, pages[i]);
      for j := 0 to |parts|
        invariant added == before + mine[..j]
        invariant total == |added|
      {
        added := added + [ManualRecord(ChunkId(pageNum, j), parts[j], PageMeta(file, pageNum))];
        total := total + 1;
        assert mine[..j + 1] == mine[..j] + [mine[j]];
      }
      assert mine[..|parts|] == mine;
      RunSnoc(file, pages, i);
    }
    assert pages[..|pages|] == pages;
  }

  /** The whole run: keep the pages, then ingest them, with the file name the
      metadata records. */
  method Train(path: string, extracted: seq<Option<string>>) returns (added: seq<ManualRecord>, total: nat)
    ensures added == RunRecords(Basename(path), Kept(Cleaned(extracted)))
    ensures total == |added|
    ensures forall a, b | 0 <= a < b < |added| :: added[a].id != added[b].id
    ensures forall k | 0 <= k < |added| ::
      "file" in added[k].meta && added[k].meta["file"] == Str(Basename(path))
  {
    var pages := KeepPages(extracted);
    KeptIncreasing(Cleaned(extracted));
    added, total := Ingest(Basename(path), pages);
    RunIdsDistinct(Basename(path), pages);
    RunRecordsFile(Basename(path), pages);
  }

  /** Different `(page, j)` pairs give different ids. */
  lemma ChunkIdInjective(p: nat, j: nat, p': nat, j': nat)
    requires ChunkId(p, j) == ChunkId(p', j')
    ensures p == p' && j == j'
  {
    var a, b, a', b' := Padded(p, 3), Padded(j, 3), Padded(p', 3), Padded(j', 3);
    assert ChunkId(p, j) == "p" + (a + "-c" + b);
    assert ChunkId(p', j') == "p" + (a' + "-c" + b');
    assert a + "-c" + b == ChunkId(p, j)[1..] == a' + "-c" + b';
    PaddedSpec(p, 3);
    PaddedSpec(p', 3);
    SplitAtMarker(a, b, a', b', "-c");
    PaddedInjective(p, p', 3);
    PaddedInjective(j, j', 3);
  }

  /** Record `k` of a run is chunk `RunKeys(pages)[k].1` of page `RunKeys(pages)[k].0`. */
  lemma {:induction false} RunKeysMatch(file: string, pages: seq<Page>)
    ensures |RunRecords(file, pages)| == |RunKeys(pages)|
    ensures forall k | 0 <= k < |RunKeys(pages)| ::
      RunRecords(file, pages)[k].id == ChunkId(RunKeys(pages)[k].0, RunKeys(pages)[k].1)
      && RunRecords(file, pages)[k].meta == PageMeta(file, RunKeys(pages)[k].0)
    decreases |pages|
  {
    if pages != [] {
      var init := pages[..|pages| - 1];
      RunKeysMatch(file, init);
      var n := |RunKeys(init)|;
      forall k | n <= k < |RunKeys(pages)|
        ensures RunRecords(file, pages)[k].id == ChunkId(RunKeys(pages)[k].0, RunKeys(pages)[k].1)
        ensures RunRecords(file, pages)[k].meta == PageMeta(file, RunKeys(pages)[k].0)
      {
        assert RunRecords(file, pages)[k] == PageRecords(file, pages[|pages| - 1])[k - n];
      }
    }
  }

  /** Records of a run whose page numbers are below `bound` have keys below `bound`. */
  lemma {:induction false} RunKeysBelow(pages: seq<Page>, bound: nat)
    requires forall a | 0 <= a < |pages| :: pages[a].number < bound
    ensures forall k | 0 <= k < |RunKeys(pages)| :: RunKeys(pages)[k].0 < bound
    decreases |pages|
  {
    if pages != [] {
      var init := pages[..|pages| - 1];
      assert forall a | 0 <= a < |init| :: init[a] == pages[a];
      RunKeysBelow(init, bound);
    }
  }

  /** With strictly increasing page numbers the keys of a run are pairwise distinct. */
  lemma {:induction false} RunKeysDistinct(pages: seq<Page>)
    requires forall a, b | 0 <= a < b < |pages| :: pages[a].number < pages[b].number
    ensures forall a, b | 0 <= a < b < |RunKeys(pages)| :: RunKeys(pages)[a] != RunKeys(pages)[b]
    decreases |pages|
  {
    if pages != [] {
      var init := pages[..|pages| - 1];
      var last := pages[|pages| - 1];
      assert forall a | 0 <= a < |init| :: init[a] == pages[a];
      RunKeysDistinct(init);
      RunKeysBelow(init, last.number);
      var keys, n := RunKeys(pages), |RunKeys(init)|;
      forall a, b | 0 <= a < b < |keys| ensures keys[a] != keys[b] {
        if b >= n {
          assert keys[b] == (last.number, b - n);
          if a >= n { assert keys[a] == (last.number, a - n); }
          else { assert keys[a] == RunKeys(init)[a]; }
        } else {
          assert keys[a] == RunKeys(init)[a] && keys[b] == RunKeys(init)[b];
        }
      }
    }
  }

  /** Over pages with strictly increasing numbers, every id of a run is distinct. */
  lemma RunIdsDistinct(file: string, pages: seq<Page>)
    requires forall a, b | 0 <= a < b < |pages| :: pages[a].number < pages[b].number
    ensures forall a, b | 0 <= a < b < |RunRecords(file, pages)| ::
      RunRecords(file, pages)[a].id != RunRecords(file, pages)[b].id
  {
    RunKeysMatch(file, pages);
    RunKeysDistinct(pages);
    var recs, keys := RunRecords(file, pages), RunKeys(pages);
    forall a, b | 0 <= a < b < |recs| ensures recs[a].id != recs[b].id {
      if recs[a].id == recs[b].id {
        ChunkIdInjective(keys[a].0, keys[a].1, keys[b].0, keys[b].1);
      }
    }
  }

  /** Every record of a run carries the file name (its page number is stated by `RunKeysMatch`). */
  lemma {:induction false} RunRecordsFile(file: string, pages: seq<Page>)
    ensures forall k | 0 <= k < |RunRecords(file, pages)| ::
      "file" in RunRecords(file, pages)[k].meta && RunRecords(file, pages)[k].meta["file"] == Str(file)
    decreases |pages|
  {
    if pages != [] {
      RunRecordsFile(file, pages[..|pages| - 1]);
    }
  }

  /** The documents of one page's records put together give the page's text back. */
  lemma PageDocumentsCover(file: string, p: Page)
    ensures Flatten(seq(|PageRecords(file, p)|, j requires 0 <= j < |PageRecords(file, p)| => PageRecords(file, p)[j].document)) == p.text
  {
    var parts := Windows(p.text, ChunkSize);
    assert seq(|PageRecords(file, p)|, j requires 0 <= j < |PageRecords(file, p)| => PageRecords(file, p)[j].document) == parts;
    FlattenWindows(p.text, ChunkSize);
  }
}
