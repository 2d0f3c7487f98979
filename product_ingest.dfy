/** The product ingestion script (treinar_produtos.py): every CSV row that
    names or describes a product becomes one record — a one-line labelled
    document, an id derived from the row's position and `{sku, nome}`
    metadata — and the records are handed to the product collection in
    batches of 64. The CSV reader's rows are the input; dialect sniffing,
    the embedding call and the printed progress are not modelled. */
module ProductIngest {
  import opened Wrappers
  import opened Text
  import opened Slices
  import opened Metadata

  /** A CSV row as `csv.DictReader` yields it: column name to cell text. */
  type Row = map<string, string>

  /** The column aliases tried for each field, in order. */
  const NameKeys: seq<string> := ["nome", "Nome", "name", "Name", "Título", "titulo"]
  const SkuKeys: seq<string> := ["sku", "SKU", "codigo", "Código", "code", "Code"]
  const PriceKeys: seq<string> := ["preco", "preço", "price", "Price"]
  const DescKeys: seq<string> := ["descricao", "Descrição", "description", "Description"]
  const CategoryKeys: seq<string> := ["categoria", "Categoria", "categoria1", "Categoria1"]
  const StockKeys: seq<string> := ["estoque", "Estoque", "stock", "Stock"]

  /** The batch size of the indexing loop. */
  const BatchSize: nat := 64

  /** `clean(t)`: a missing value counts as "", whitespace runs become one
      space, and the ends are stripped. */
  function Clean(t: Option<string>): string {
    Normalize(t.ValueOr(""))
  }

  /** A cleaned value is the value's words one space apart: it keeps every
      non-whitespace character in order, has single spaces inside and none at
      the ends, is empty exactly when the value is missing or blank, and
      cleaning it again changes nothing. */
  lemma CleanSpec(t: Option<string>)
    ensures Clean(t) == Join(Words(t.ValueOr("")), " ")
    ensures NonSpace(Clean(t)) == NonSpace(t.ValueOr(""))
    ensures Normalized(Clean(t))
    ensures Clean(t) == "" <==> t == None || Blank(t.value)
    ensures Clean(Some(Clean(t))) == Clean(t)
  {
    NormalizeSpec(t.ValueOr(""));
    NormalizeIdempotent(t.ValueOr(""));
  }

  /** Column `k` is present in the row with a non-empty cell. */
  predicate Filled(row: Row, k: string) {
    k in row && row[k] != ""
  }

  /** `row_get(row, *keys)`: the cell of the first alias that is present and
      non-empty, or "" when there is none. */
  function RowGet(row: Row, keys: seq<string>): (r: string)
    ensures r == "" <==> forall j | 0 <= j < |keys| :: !Filled(row, keys[j])
    ensures forall j | 0 <= j < |keys| && Filled(row, keys[j]) ::
      (forall i | 0 <= i < j :: !Filled(row, keys[i])) ==> r == row[keys[j]]
    decreases |keys|
  {
    if keys == [] then ""
    else if Filled(row, keys[0]) then row[keys[0]]
    else RowGet(row, keys[1..])
  }

  /** The six cleaned fields read from one row. */
  datatype Product = Product(nome: string, sku: string, preco: string, desc: string, cat: string, est: string)

  function ReadProduct(row: Row): Product {
    Product(Clean(Some(RowGet(row, NameKeys))), Clean(Some(RowGet(row, SkuKeys))),
            Clean(Some(RowGet(row, PriceKeys))), Clean(Some(RowGet(row, DescKeys))),
            Clean(Some(RowGet(row, CategoryKeys))), Clean(Some(RowGet(row, StockKeys))))
  }

  /** A row with neither a name nor a description is skipped. */
  predicate Skipped(p: Product) {
    p.nome == "" && p.desc == ""
  }

  /** A row is skipped exactly when every name alias and every description
      alias is absent, empty or whitespace only. */
  lemma SkippedIff(row: Row)
    ensures Skipped(ReadProduct(row)) <==>
      Blank(RowGet(row, NameKeys)) && Blank(RowGet(row, DescKeys))
  {
    CleanSpec(Some(RowGet(row, NameKeys)));
    CleanSpec(Some(RowGet(row, DescKeys)));
  }

  /** The separator between the document's lines is the two characters
      backslash and `n` (the f-strings escape the backslash), not a line break. */
  const LineSep: string := "\\n"

  /** The labelled lines of a product's document, in order. */
  function Lines(p: Product): seq<string> {
    ["PRODUTO", "Nome: " + p.nome, "SKU: " + p.sku, "Preço: " + p.preco,
     "Categoria: " + p.cat, "Estoque: " + p.est, "Descrição: " + p.desc]
  }

  /** The document stored and embedded for a product: the f-string pieces
      `PRODUTO\\n`, `Nome: {nome}\\n`, ... put together, which is the lines
      joined by the literal separator. */
  function Document(p: Product): string {
    Join(Lines(p), LineSep)
  }

  /** The document is the template of seven f-string pieces filled in with
      the product's fields, each label followed by its value, separated by
      backslash and `n`. */
  lemma DocumentTemplate(p: Product)
    ensures Document(p) == "PRODUTO" + "\\n" + ("Nome: " + p.nome) + "\\n" + ("SKU: " + p.sku)
      + "\\n" + ("Preço: " + p.preco) + "\\n" + ("Categoria: " + p.cat)
      + "\\n" + ("Estoque: " + p.est) + "\\n" + ("Descrição: " + p.desc)
  {
    var l, sep := Lines(p), LineSep;
    assert l[..1] == ["PRODUTO"] && Join(l[..1], sep) == "PRODUTO";
    assert l[..2][..1] == l[..1] && Join(l[..2], sep) == Join(l[..1], sep) + sep + l[1];
    assert l[..3][..2] == l[..2] && Join(l[..3], sep) == Join(l[..2], sep) + sep + l[2];
    assert l[..4][..3] == l[..3] && Join(l[..4], sep) == Join(l[..3], sep) + sep + l[3];
    assert l[..5][..4] == l[..4] && Join(l[..5], sep) == Join(l[..4], sep) + sep + l[4];
    assert l[..6][..5] == l[..5] && Join(l[..6], sep) == Join(l[..5], sep) + sep + l[5];
    assert l[..6] == l[..|l| - 1] && Join(l, sep) == Join(l[..6], sep) + sep + l[6];
  }

  /** `f"prod-{i:06d}"`. */
  function ProdId(i: nat): string {
    "prod-" + Padded(i, 6)
  }

  /** `{"sku": sku, "nome": nome}`. */
  function ProductMeta(p: Product): Meta {
    map["sku" := Str(p.sku), "nome" := Str(p.nome)]
  }

  /** What is passed to the collection for one product (without its embedding). */
  datatype ProductRecord = ProductRecord(id: string, document: string, meta: Meta)

  /** The record of the product read from row number `n` (counted from 1). */
  function RecordOf(n: nat, p: Product): ProductRecord {
    ProductRecord(ProdId(n), Document(p), ProductMeta(p))
  }

  /** The products read from the rows, in file order. */
  function Products(rows: seq<Row>): (ps: seq<Product>)
    ensures |ps| == |rows|
  {
    seq(|rows|, i requires 0 <= i < |rows| => ReadProduct(rows[i]))
  }

  /** Row `n` (1-based) yields a record. */
  predicate Listed(products: seq<Product>, n: int) {
    1 <= n <= |products| && !Skipped(products[n - 1])
  }

  /** The numbers of the rows that yield a record, in order. Skipped rows
      still use up their number. */
  function KeptRows(products: seq<Product>): seq<nat>
    decreases |products|
  {
    if products == [] then []
    else
      var n := |products|;
      KeptRows(products[..n - 1]) + (if !Skipped(products[n - 1]) then [n] else [])
  }

  /** The records built from the products, in file order. */
  function Records(products: seq<Product>): seq<ProductRecord>
    decreases |products|
  {
    if products == [] then []
    else
      var n := |products|;
      Records(products[..n - 1]) + (if !Skipped(products[n - 1]) then [RecordOf(n, products[n - 1])] else [])
  }

  /** The ids, documents and metadata of a list of records, each in order. */
  function RecordIds(recs: seq<ProductRecord>): seq<string> {
    seq(|recs|, k requires 0 <= k < |recs| => recs[k].id)
  }

  function RecordDocs(recs: seq<ProductRecord>): seq<string> {
    seq(|recs|, k requires 0 <= k < |recs| => recs[k].document)
  }

  function RecordMetas(recs: seq<ProductRecord>): seq<Meta> {
    seq(|recs|, k requires 0 <= k < |recs| => recs[k].meta)
  }

  lemma ColumnsSnoc(recs: seq<ProductRecord>, r: ProductRecord)
    ensures RecordIds(recs + [r]) == RecordIds(recs) + [r.id]
    ensures RecordDocs(recs + [r]) == RecordDocs(recs) + [r.document]
    ensures RecordMetas(recs + [r]) == RecordMetas(recs) + [r.meta]
  {
  }

  /** One more row adds its record unless it is skipped. */
  lemma RecordsSnoc(products: seq<Product>, i: nat)
    requires i < |products|
    ensures Records(products[..i + 1])
         == Records(products[..i]) + (if !Skipped(products[i]) then [RecordOf(i + 1, products[i])] else [])
  {
    assert products[..i + 1][..i] == products[..i];
  }

  /** The record-building loop over `enumerate(reader, start=1)`: the three
      lists are the columns of the records of the rows that are not skipped. */
  method BuildRecords(rows: seq<Row>) returns (ids: seq<string>, texts: seq<string>, metas: seq<Meta>)
    ensures ids == RecordIds(Records(Products(rows)))
    ensures texts == RecordDocs(Records(Products(rows)))
    ensures metas == RecordMetas(Records(Products(rows)))
  {
    ghost var products := Products(rows);
    ghost var recs: seq<ProductRecord> := [];
    ids, texts, metas := [], [], [];
    for i := 0 to |rows|
      invariant recs == Records(products[..i])
      invariant ids == RecordIds(recs) && texts == RecordDocs(recs) && metas == RecordMetas(recs)
    {
      var p := ReadProduct(rows[i]);
      assert p == products[i];
      RecordsSnoc(products, i);
      if !(p.nome == "" && p.desc == "") {
        var id, doc, meta := ProdId(i + 1), Document(p), ProductMeta(p);
        ColumnsSnoc(recs, ProductRecord(id, doc, meta));
        recs := recs + [ProductRecord(id, doc, meta)];
        ids, texts, metas := ids + [id], texts + [doc], metas + [meta];
      } else {
        assert recs == Records(products[..i + 1]);
      }
    }
    assert products[..|rows|] == products;
  }

  /** One call to the collection's `add`. */
  datatype Batch = Batch(ids: seq<string>, documents: seq<string>, metas: seq<Meta>)

  /** The number of pieces `Windows` cuts `n` items into. */
  lemma BatchCount(n: nat, b: nat)
    requires BatchSize * b >= n && (b == 0 || BatchSize * (b - 1) < n)
    ensures b == (n + BatchSize - 1) / BatchSize
  {
    DivUnique(n + BatchSize - 1, BatchSize, b, n + BatchSize - 1 - BatchSize * b);
  }

  /** Batch `k` holds slice `[64k, 64(k+1))` of each list, cut short at the end. */
  predicate BatchAt(b: Batch, ids: seq<string>, texts: seq<string>, metas: seq<Meta>, k: nat)
    requires |ids| == |texts| == |metas|
  {
    var lo, hi := BatchSize * k, Min(BatchSize * (k + 1), |texts|);
    lo <= hi && b == Batch(ids[lo..hi], texts[lo..hi], metas[lo..hi])
  }

  /** The batching loop: slice `k` of each list, 64 at a time, goes into
      batch `k`, and `total` counts the documents sent. */
  method IndexBatches(ids: seq<string>, texts: seq<string>, metas: seq<Meta>) returns (batches: seq<Batch>, total: nat)
    requires |ids| == |texts| == |metas|
    ensures |batches| == |Windows(ids, BatchSize)| == |Windows(texts, BatchSize)| == |Windows(metas, BatchSize)|
    ensures forall k | 0 <= k < |batches| ::
      batches[k] == Batch(Windows(ids, BatchSize)[k], Windows(texts, BatchSize)[k], Windows(metas, BatchSize)[k])
    ensures total == |texts|
  {
    var n := |texts|;
    batches, total := [], 0;
    var i := 0;
    while i < n
      invariant i == BatchSize * |batches|
      invariant batches == [] || BatchSize * (|batches| - 1) < n
      invariant total == Min(i, n)
      invariant forall k | 0 <= k < |batches| :: BatchAt(batches[k], ids, texts, metas, k)
      decreases n - i
    {
      var hi := Min(i + BatchSize, n);
      var batchTexts := texts[i..hi];
      batches := batches + [Batch(ids[i..hi], batchTexts, metas[i..hi])];
      assert BatchAt(batches[|batches| - 1], ids, texts, metas, |batches| - 1);
      total := total + |batchTexts|;
      i := i + BatchSize;
    }
    BatchCount(n, |batches|);
    BatchesAreWindows(batches, ids, texts, metas);
  }

  /** Batches cut at multiples of 64, as many as `Windows` makes, are its pieces. */
  lemma BatchesAreWindows(batches: seq<Batch>, ids: seq<string>, texts: seq<string>, metas: seq<Meta>)
    requires |ids| == |texts| == |metas|
    requires |batches| == (|texts| + BatchSize - 1) / BatchSize
    requires forall k | 0 <= k < |batches| :: BatchAt(batches[k], ids, texts, metas, k)
    ensures |batches| == |Windows(ids, BatchSize)| == |Windows(texts, BatchSize)| == |Windows(metas, BatchSize)|
    ensures forall k | 0 <= k < |batches| ::
      batches[k] == Batch(Windows(ids, BatchSize)[k], Windows(texts, BatchSize)[k], Windows(metas, BatchSize)[k])
  {
    WindowCount(ids, BatchSize);
    WindowCount(texts, BatchSize);
    WindowCount(metas, BatchSize);
    forall k | 0 <= k < |batches|
      ensures batches[k] == Batch(Windows(ids, BatchSize)[k], Windows(texts, BatchSize)[k], Windows(metas, BatchSize)[k])
    {
      assert BatchAt(batches[k], ids, texts, metas, k);
      WindowAt(ids, BatchSize, k);
      WindowAt(texts, BatchSize, k);
      WindowAt(metas, BatchSize, k);
    }
  }

  /** The whole run: build the records, then index them in batches; batch `k`
      carries piece `k` of the records' ids, documents and metadata alike. */
  method IndexProducts(rows: seq<Row>) returns (batches: seq<Batch>, total: nat)
    ensures total == |Records(Products(rows))| == |KeptRows(Products(rows))|
    ensures |batches| == (total + BatchSize - 1) / BatchSize
    ensures forall k | 0 <= k < |batches| :: 0 < |batches[k].ids| <= BatchSize
    ensures Flatten(BatchIds(batches)) == RecordIds(Records(Products(rows)))
    ensures |batches| == |Windows(RecordIds(Records(Products(rows))), BatchSize)|
      == |Windows(RecordDocs(Records(Products(rows))), BatchSize)|
      == |Windows(RecordMetas(Records(Products(rows))), BatchSize)|
    ensures forall k | 0 <= k < |batches| :: batches[k] == Batch(
      Windows(RecordIds(Records(Products(rows))), BatchSize)[k],
      Windows(RecordDocs(Records(Products(rows))), BatchSize)[k],
      Windows(RecordMetas(Records(Products(rows))), BatchSize)[k])
  {
    var ids, texts, metas := BuildRecords(rows);
    ghost var recs := Records(Products(rows));
    assert ids == RecordIds(recs) && texts == RecordDocs(recs) && metas == RecordMetas(recs);
    batches, total := IndexBatches(ids, texts, metas);
    RecordsMatch(Products(rows));
    WindowCount(texts, BatchSize);
    WindowSizes(ids, BatchSize);
    assert BatchIds(batches) == Windows(ids, BatchSize);
    FlattenWindows(ids, BatchSize);
  }

  /** The ids of each batch, in order. */
  function BatchIds(batches: seq<Batch>): seq<seq<string>> {
    seq(|batches|, k requires 0 <= k < |batches| => batches[k].ids)
  }

  // ---------------------------------------------------------------- properties

  /** `row_get` does not depend on aliases after the first filled one. */
  lemma {:induction false} RowGetFirst(row: Row, keys: seq<string>, more: seq<string>)
    requires exists j | 0 <= j < |keys| :: Filled(row, keys[j])
    ensures RowGet(row, keys + more) == RowGet(row, keys)
    decreases |keys|
  {
    if !Filled(row, keys[0]) {
      var j :| 0 <= j < |keys| && Filled(row, keys[j]);
      assert j > 0 && keys[1..][j - 1] == keys[j];
      assert (keys + more)[1..] == keys[1..] + more;
      RowGetFirst(row, keys[1..], more);
    }
  }

  /** No whitespace character other than the plain space occurs: in particular
      no line break. */
  predicate OneLine(s: string) {
    forall c | IsSpace(c) && c != ' ' :: c !in s
  }

  /** A cleaned field is on one line. */
  lemma CleanOneLine(t: Option<string>)
    ensures OneLine(Clean(t))
  {
    CleanSpec(t);
  }

  /** Joining one-line parts with a one-line separator gives one line. */
  lemma {:induction false} JoinOneLine(parts: seq<string>, sep: string)
    requires OneLine(sep)
    requires forall k | 0 <= k < |parts| :: OneLine(parts[k])
    ensures OneLine(Join(parts, sep))
    decreases |parts|
  {
    if |parts| > 1 {
      JoinOneLine(parts[..|parts| - 1], sep);
    }
  }

  /** A document built from one-line fields is on one line: the separator is
      not a line break. */
  lemma DocumentOneLine(p: Product)
    requires OneLine(p.nome) && OneLine(p.sku) && OneLine(p.preco)
    requires OneLine(p.desc) && OneLine(p.cat) && OneLine(p.est)
    ensures OneLine(Document(p))
  {
    JoinOneLine(Lines(p), LineSep);
  }

  /** So every product document that is stored is a single line. */
  lemma ReadDocumentOneLine(row: Row)
    ensures OneLine(Document(ReadProduct(row)))
    ensures '\n' !in Document(ReadProduct(row))
  {
    CleanOneLine(Some(RowGet(row, NameKeys)));
    CleanOneLine(Some(RowGet(row, SkuKeys)));
    CleanOneLine(Some(RowGet(row, PriceKeys)));
    CleanOneLine(Some(RowGet(row, DescKeys)));
    CleanOneLine(Some(RowGet(row, CategoryKeys)));
    CleanOneLine(Some(RowGet(row, StockKeys)));
    DocumentOneLine(ReadProduct(row));
    assert IsSpace('\n');
  }

  /** Different row numbers give different ids. */
  lemma ProdIdInjective(a: nat, b: nat)
    ensures ProdId(a) == ProdId(b) <==> a == b
  {
    if ProdId(a) == ProdId(b) {
      assert Padded(a, 6) == ProdId(a)[5..] == ProdId(b)[5..] == Padded(b, 6);
      PaddedInjective(a, b, 6);
    }
  }

  /** Every kept row number is in range, names a row that is not skipped, and
      they strictly increase. */
  lemma {:induction false} KeptRowsSpec(products: seq<Product>)
    ensures forall k | 0 <= k < |KeptRows(products)| :: Listed(products, KeptRows(products)[k])
    ensures forall a, b | 0 <= a < b < |KeptRows(products)| :: KeptRows(products)[a] < KeptRows(products)[b]
    decreases |products|
  {
    if products != [] {
      var init := products[..|products| - 1];
      KeptRowsSpec(init);
      assert forall m | 1 <= m < |products| :: Listed(init, m) == Listed(products, m);
      forall k | 0 <= k < |KeptRows(init)| ensures KeptRows(init)[k] < |products| {
        assert Listed(init, KeptRows(init)[k]);
      }
    }
  }

  /** A row yields a record exactly when it has a name or a description. */
  lemma {:induction false} KeptRowsComplete(products: seq<Product>)
    ensures (set k | 0 <= k < |KeptRows(products)| :: KeptRows(products)[k])
         == set n | 1 <= n <= |products| && Listed(products, n)
    decreases |products|
  {
    if products != [] {
      var n := |products|;
      var init := products[..n - 1];
      KeptRowsComplete(init);
      assert forall m | 1 <= m < n :: Listed(init, m) == Listed(products, m);
      var r, r' := KeptRows(init), KeptRows(products);
      var before := set k | 0 <= k < |r| :: r[k];
      var after := set k | 0 <= k < |r'| :: r'[k];
      if !Skipped(products[n - 1]) {
        assert r' == r + [n];
        assert after == before + {n} by {
          forall x | x in before ensures x in after {
            var k :| 0 <= k < |r| && r[k] == x;
            assert r'[k] == x;
          }
          assert r'[|r|] == n;
        }
      } else {
        assert r' == r;
      }
    }
  }

  /** Record `k` is the record of row `KeptRows(products)[k]`. */
  lemma {:induction false} RecordsMatch(products: seq<Product>)
    ensures |Records(products)| == |KeptRows(products)|
    ensures forall k | 0 <= k < |Records(products)| ::
      Listed(products, KeptRows(products)[k]) &&
      Records(products)[k] == RecordOf(KeptRows(products)[k], products[KeptRows(products)[k] - 1])
    decreases |products|
  {
    if products != [] {
      var init := products[..|products| - 1];
      RecordsMatch(init);
      KeptRowsSpec(init);
      forall k | 0 <= k < |KeptRows(init)| ensures init[KeptRows(init)[k] - 1] == products[KeptRows(init)[k] - 1] {
        assert Listed(init, KeptRows(init)[k]);
      }
    }
  }

  /** The ids of the records are pairwise distinct, so no `add` overwrites
      another product. */
  lemma RecordIdsDistinct(products: seq<Product>)
    ensures forall a, b | 0 <= a < b < |RecordIds(Records(products))| ::
      RecordIds(Records(products))[a] != RecordIds(Records(products))[b]
  {
    RecordsMatch(products);
    KeptRowsSpec(products);
    var recs, rows := Records(products), KeptRows(products);
    forall a, b | 0 <= a < b < |recs| ensures recs[a].id != recs[b].id {
      ProdIdInjective(rows[a], rows[b]);
    }
  }

  /** Concatenating the batches gives back the three lists, in order. */
  lemma BatchesCover(ids: seq<string>, texts: seq<string>, metas: seq<Meta>)
    ensures Flatten(Windows(ids, BatchSize)) == ids
    ensures Flatten(Windows(texts, BatchSize)) == texts
    ensures Flatten(Windows(metas, BatchSize)) == metas
  {
    FlattenWindows(ids, BatchSize);
    FlattenWindows(texts, BatchSize);
    FlattenWindows(metas, BatchSize);
  }
}
