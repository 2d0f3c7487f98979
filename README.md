# desfrut-render-starter — a verified model of its text and sequence handling

The repository is a small retrieval-augmented assistant for the Desfrut shop.
It has two ingestion scripts and one web app:

- `treinar.py` reads a PDF manual. It keeps the pages that have text, cuts
  each page into chunks and adds every chunk to the manual collection under
  an id built from its page and position.
- `treinar_produtos.py` reads a product CSV. It turns every row that has a
  name or a description into a one-line labelled document with a
  position-based id and `{sku, nome}` metadata. It adds the records in
  batches of 64.
- `app.py` answers a question. It queries both collections, builds one
  context and a de-duplicated list of citations (`fontes`), chooses a
  prompt and asks a chat model. `POST /ask` wraps this with input
  validation and error reporting.

This project models the deterministic layer around the external services
and proves what that layer guarantees. The external results are inputs:

- the PDF reader's `extract_text()` results, as a sequence of optional strings;
- the CSV reader's rows, as maps from column name to cell text;
- retrieval, as a function from (collection, question) to documents plus
  metadata, or an error message;
- the chat completion, as a function from the request to a text, or an
  error message.

Modules, one per concern:

| module | file | models |
|---|---|---|
| `Wrappers` | wrappers.dfy | `Option` and `Result`, a value or a raised error |
| `Text` | text.dfy | Python whitespace, `strip`, `re.sub(r"\s+", " ", t).strip()`, `join`, `{:0Nd}` formatting |
| `Slices` | slices.dfy | cutting a sequence into consecutive fixed-size pieces (the chunker and the batch loop) |
| `Metadata` | metadata.dfy | metadata maps, `str()`, truthiness, `get(k, d)` and `get(k) or d` |
| `ManualIngest` | manual_ingest.dfy | `treinar.py` |
| `ProductIngest` | product_ingest.dfy | `treinar_produtos.py` |
| `Assistant` | assistant.dfy | `app.py` |

The loops of the source are methods with loop invariants, each proved
against a specification function:

- the page filter, `chunk_text` and the ingestion loop of `treinar.py`;
- the row loop and the batch loop of `treinar_produtos.py`;
- the two try-blocks of `build_context`.

The pure helpers of the source are functions: `clean`, `row_get`, the
document template, the ids, the citations, `dict.fromkeys` and the prompt
choice. `row_get` is a short loop with an early return in the source; it is
modelled as a recursive function over the alias list. Lemmas state the
helpers' properties.

Four behaviours of the code that a reader might not expect, and which the
model keeps:

- **No overlap in `chunk_text`.** Its parameter is named `overlap` and
  defaults to 150. The loop sets `start = max(end - overlap, end)`, which is
  `end` for every `overlap >= 0`. The chunks are therefore consecutive
  pieces that do not overlap, and there are `ceil(L/size)` of them.
  `ChunkText` takes `overlap` and ignores it, as the code does.
- **`chunk_text` accepts any text.** It returns `[]` for the empty string.
  The page filter never passes it one.
- **The product document is one line.** The f-strings write `\\n`, which is
  the two characters backslash and `n`, not a line break.
  `DocumentTemplate` gives the document piece by piece, and
  `ReadDocumentOneLine` proves that no line break occurs.
- **Records are added.** Both scripts call `add`. The model records what is
  passed to `add`, and proves that the ids in one run are pairwise distinct.

## Model

| member | source | states |
|---|---|---|
| Text.NormalizeSpec | desfrut-render-starter/treinar.py:29 | the cleaned text is `" ".join(t.split())`, the words of the input one plain space apart; so it has single spaces inside and none at the ends, keeps every non-whitespace character in order, and is empty exactly when the input is blank |
| Text.NormalizeWords | desfrut-render-starter/treinar_produtos.py:15-17 | `re.sub(r"\s+", " ", t).strip()` equals `" ".join(t.split())` for every string |
| Text.WordsSpec | desfrut-render-starter/treinar.py:29 | the words of a string are non-empty and free of whitespace, put together they are its non-whitespace characters, and there are none exactly when it is blank |
| Text.Word | desfrut-render-starter/treinar.py:29 | the longest whitespace-free prefix: none of its characters is whitespace, and the next character, if any, is |
| Text.NormalizeIdempotent | desfrut-render-starter/treinar_produtos.py:15-17 | cleaning twice is the same as cleaning once |
| Text.NormalizeFixed | desfrut-render-starter/treinar_produtos.py:15-17 | an already normalised string is left unchanged |
| Text.CollapseSpec | desfrut-render-starter/treinar.py:29 | `re.sub(r"\s+", " ", t)` leaves no whitespace but isolated plain spaces, starts with a space exactly when `t` does, is empty exactly when `t` is, and drops no other character |
| Text.CollapseWord | desfrut-render-starter/treinar.py:29 | a run without whitespace passes through `re.sub(r"\s+", " ", t)` unchanged |
| Text.CollapseRun | desfrut-render-starter/treinar.py:29 | a non-empty whitespace run that ends the text or precedes a non-whitespace character becomes exactly one space |
| Text.TrimLeftSpec | desfrut-render-starter/treinar.py:29 | the left strip removes only whitespace, and removes all of it before the first other character |
| Text.TrimRightSpec | desfrut-render-starter/treinar.py:29 | the right strip removes only whitespace, and removes all of it after the last other character |
| Text.StripEnds | desfrut-render-starter/app.py:70 | `strip()` yields the empty string or a string whose ends are not whitespace |
| Text.StripEmptyIffBlank | desfrut-render-starter/app.py:70 | `s.strip()` is empty exactly when every character of `s` is whitespace |
| Text.JoinBlankIffPartsBlank | desfrut-render-starter/app.py:62 | with a blank separator, the joined text is blank exactly when every part is blank |
| Text.JoinCons | desfrut-render-starter/app.py:62 | `sep.join([w] + ws)` is `w + sep + sep.join(ws)` for a non-empty `ws` |
| Text.DecimalSpec | desfrut-render-starter/treinar.py:54 | `str(n)` is a non-empty string of digits that reads back as `n`, with no leading zero unless `n` is 0, which gives `"0"` |
| Text.PaddedSpec | desfrut-render-starter/treinar.py:54 | `{n:0Wd}` is all digits and `max(W, digits of n)` characters long, never truncated |
| Text.PaddedRoundTrip | desfrut-render-starter/treinar_produtos.py:68 | reading back a zero-padded numeral gives the number |
| Text.PaddedInjective | desfrut-render-starter/treinar_produtos.py:68 | two padded numerals are equal exactly when the numbers are |
| Text.SplitAtMarker | desfrut-render-starter/treinar.py:54 | when neither left part contains the marker's first character, `x + m + y == x' + m + y'` forces `x == x'` and `y == y'` |
| Slices.FlattenWindows | desfrut-render-starter/treinar.py:35-41 | putting the pieces back together gives the input exactly |
| Slices.WindowSizes | desfrut-render-starter/treinar.py:36-39 | every piece is non-empty and at most `size` long; all but the last are exactly `size` |
| Slices.WindowCount | desfrut-render-starter/treinar.py:36-40 | there are `ceil(L/size)` pieces, so none for the empty input |
| Slices.WindowAt | desfrut-render-starter/treinar.py:38-40 | piece `k` is the slice `[k*size, min((k+1)*size, L))`, so the pieces neither overlap nor leave gaps |
| Slices.WindowsAreSlices | desfrut-render-starter/treinar_produtos.py:74-77 | the same for every piece at once |
| Metadata.GetRules | desfrut-render-starter/app.py:46-57 | for every map, `m.get(k, d)` returns whatever is stored under `k`, even a falsy value, while `m.get(k) or d` replaces a falsy value by `d`; both give `d` for an absent key, and storing under `k` leaves other keys' lookups unchanged |
| ManualIngest.Basename | desfrut-render-starter/treinar.py:57 | `os.path.basename` returns the suffix after the last `/`, which contains no `/` |
| ManualIngest.KeepPages | desfrut-render-starter/treinar.py:26-33 | the page loop builds exactly the list of 1-based page numbers and cleaned texts of the pages whose cleaned text is non-empty |
| ManualIngest.KeptText | desfrut-render-starter/treinar.py:27-31 | every kept page has an in-range 1-based number and non-empty text equal to that page's cleaned text |
| ManualIngest.KeptIncreasing | desfrut-render-starter/treinar.py:27-31 | kept page numbers strictly increase |
| ManualIngest.KeptComplete | desfrut-render-starter/treinar.py:27-33 | the kept page numbers are exactly the numbers of the pages with text; a page without text is skipped and the run goes on |
| ManualIngest.ChunkText | desfrut-render-starter/treinar.py:35-41 | the loop's chunks are the consecutive non-overlapping pieces of `size` characters: they reassemble to the text, all are non-empty, all but the last are exactly `size` long, and there are `ceil(L/size)` of them; `overlap` changes nothing |
| ManualIngest.Ingest | desfrut-render-starter/treinar.py:47-59 | the nested loop adds chunk `j` of every kept page under `p{page:03d}-c{j:03d}` with `{file, page}` metadata, in order, and `total` is the number added, which is the sum of the pages' chunk counts |
| ManualIngest.Train | desfrut-render-starter/treinar.py:25-59 | a whole run adds exactly the records of the kept pages, counts them, gives them pairwise distinct ids, and stores the PDF's base name as `file` |
| ManualIngest.ChunkIdInjective | desfrut-render-starter/treinar.py:54 | different `(page, j)` pairs give different ids |
| ManualIngest.RunKeysMatch | desfrut-render-starter/treinar.py:48-57 | record `k` of a run carries the id and the `{file, page}` metadata of its own page and chunk index |
| ManualIngest.RunKeysDistinct | desfrut-render-starter/treinar.py:48-50 | when page numbers strictly increase, the `(page, j)` pairs of a run are pairwise distinct |
| ManualIngest.RunIdsDistinct | desfrut-render-starter/treinar.py:48-58 | when page numbers strictly increase, all ids added in a run are pairwise distinct |
| ManualIngest.RunRecordsFile | desfrut-render-starter/treinar.py:57 | every record of a run stores the given file name |
| ManualIngest.PageDocumentsCover | desfrut-render-starter/treinar.py:49-55 | the documents added for one page reassemble to the page's text |
| ProductIngest.CleanSpec | desfrut-render-starter/treinar_produtos.py:15-17 | `clean` maps a missing value to "" and otherwise gives the words of the value one space apart; so it keeps every non-whitespace character in order, is normalised, is empty exactly when the value is missing or blank, and is unchanged by a second `clean` |
| ProductIngest.RowGet | desfrut-render-starter/treinar_produtos.py:29-33 | the result is "" exactly when no alias is present with a non-empty cell; otherwise it is the cell of the first such alias in argument order |
| ProductIngest.RowGetFirst | desfrut-render-starter/treinar_produtos.py:29-33 | aliases after the first filled one never matter |
| ProductIngest.SkippedIff | desfrut-render-starter/treinar_produtos.py:49-57 | a row is skipped exactly when its resolved name and its resolved description are both blank |
| ProductIngest.BuildRecords | desfrut-render-starter/treinar_produtos.py:44-70 | the row loop's `ids`, `texts` and `metas` are the aligned columns of the records of the rows that are not skipped |
| ProductIngest.KeptRowsSpec | desfrut-render-starter/treinar_produtos.py:48-57 | the numbers behind the records are in range, name rows that are not skipped, and strictly increase |
| ProductIngest.KeptRowsComplete | desfrut-render-starter/treinar_produtos.py:56-57 | a row yields a record exactly when it has a name or a description |
| ProductIngest.RecordsMatch | desfrut-render-starter/treinar_produtos.py:48-70 | record `k` has id `prod-{n:06d}` from its own 1-based row number `n` (skipped rows still use up a number), that row's document, and `{sku, nome}` metadata with the cleaned values |
| ProductIngest.ProdIdInjective | desfrut-render-starter/treinar_produtos.py:68 | two ids are equal exactly when the row numbers are |
| ProductIngest.RecordIdsDistinct | desfrut-render-starter/treinar_produtos.py:48-68 | the ids of a run are pairwise distinct |
| ProductIngest.JoinOneLine | desfrut-render-starter/treinar_produtos.py:59-67 | joining one-line parts with a one-line separator gives one line |
| ProductIngest.DocumentTemplate | desfrut-render-starter/treinar_produtos.py:59-67 | the document is `PRODUTO`, `Nome: {nome}`, `SKU: {sku}`, `Preço: {preco}`, `Categoria: {cat}`, `Estoque: {est}` and `Descrição: {desc}`, in that order, separated by backslash-n |
| ProductIngest.DocumentOneLine | desfrut-render-starter/treinar_produtos.py:59-67 | the labelled lines PRODUTO, Nome, SKU, Preço, Categoria, Estoque, Descrição joined by the backslash-n separator form one line once the fields are single-line |
| ProductIngest.ReadDocumentOneLine | desfrut-render-starter/treinar_produtos.py:49-67 | every stored product document contains no line break and no whitespace other than the plain space |
| ProductIngest.IndexBatches | desfrut-render-starter/treinar_produtos.py:72-82 | batch `k` holds piece `k` of each of the three lists, cut at multiples of 64, so the lists stay aligned; `total == len(texts)` afterwards |
| ProductIngest.BatchesAreWindows | desfrut-render-starter/treinar_produtos.py:74-77 | batches cut at multiples of 64, as many as there are pieces, are the pieces of each list |
| ProductIngest.BatchesCover | desfrut-render-starter/treinar_produtos.py:74-80 | the batches, concatenated, give back each list in order, so every element is sent exactly once |
| ProductIngest.IndexProducts | desfrut-render-starter/treinar_produtos.py:44-82 | a whole run sends `ceil(n/64)` batches of 1 to 64 records, where `n` is the number of rows not skipped; `total == n`; batch `k` holds piece `k` of the records' ids, documents and metadata alike, and the concatenated batch ids are the record ids in order |
| Assistant.AddSection | desfrut-render-starter/app.py:40-60 | one try-block appends the placeholder when retrieval raised, nothing when it found no documents, and otherwise the header, then one part per zipped pair with one citation per pair |
| Assistant.BuildContext | desfrut-render-starter/app.py:35-64 | the context is the manual section's parts then the product section's parts, joined by a blank line; `fontes` is the de-duplicated list of their citations |
| Assistant.SectionShape | desfrut-render-starter/app.py:40-60 | a section adds no part and no citation exactly when its retrieval succeeded with no documents (and its parts alone are empty exactly then too); a failure gives only the placeholder and no citation; otherwise the header comes first, followed by `min(len(docs), len(metas))` parts and as many citations |
| Assistant.SectionOrder | desfrut-render-starter/app.py:44-46 | part `k+1` is document `k`, and citation `k` comes from metadata `k`: retrieval order is kept |
| Assistant.FailureIsolated | desfrut-render-starter/app.py:40-60 | when one collection fails, its placeholder replaces its section and the other section is exactly what it would otherwise be |
| Assistant.ContextBlankIff | desfrut-render-starter/app.py:40-62 | the context is blank exactly when both retrievals succeeded and found no documents; a failure placeholder alone makes it non-blank |
| Assistant.PromptsDiffer | desfrut-render-starter/app.py:70-75 | the two user prompts are never the same string |
| Assistant.EmptyPromptIff | desfrut-render-starter/app.py:70-75 | the "Contexto (vazio)" prompt is chosen exactly when the context is blank |
| Assistant.EmptyPromptWhenNothingFound | desfrut-render-starter/app.py:62-75 | the user message of the request `answer` sends is the empty-context prompt exactly when both retrievals succeeded without documents |
| Assistant.Answer | desfrut-render-starter/app.py:66-90 | `answer` sends the system prompt and the chosen user prompt at temperature 0.2, and returns the model's text with the citations; a failing model call yields its error |
| Assistant.Ask | desfrut-render-starter/app.py:159-169 | a missing question counts as ""; a question that is empty after `strip()` gets 400 "Pergunta vazia." whatever retrieval and the model would return; otherwise the stripped question is answered with 200, or the error comes back with 500 |
| Text.IndexOf | desfrut-render-starter/app.py:63 | the first position of a value, or the length when it does not occur |
| Assistant.DedupMembers | desfrut-render-starter/app.py:63 | `dict.fromkeys` keeps a value exactly when the value occurs |
| Assistant.DedupSpec | desfrut-render-starter/app.py:63 | the de-duplicated list has no repetitions, holds exactly the values of the input, and orders them by first occurrence |
| Assistant.DedupDistinct | desfrut-render-starter/app.py:63 | a list with no repetitions is returned unchanged |
| Assistant.DedupIdempotent | desfrut-render-starter/app.py:63 | de-duplicating twice is de-duplicating once |
| Assistant.FontesSpec | desfrut-render-starter/app.py:63 | the returned citations have no repetitions, are exactly the raw citations of both collections, and keep first-seen order |
| Assistant.CitationOfManualChunk | desfrut-render-starter/app.py:46 | a manual chunk stored with `{file, page}` is cited as `file pág. page` |
| Assistant.CitationOfProduct | desfrut-render-starter/app.py:56-58 | a stored product is cited as `nome (sku)`, with "Produto" or "SKU?" standing in for an empty name or sku |
| Assistant.ManualDefaults | desfrut-render-starter/app.py:46 | for every metadata map, an empty `file` or `page` is printed as it is, while an absent one is replaced by `apostila.pdf` or `?`: `get(k, d)` defaults only absent keys |
| Assistant.ProductDefaults | desfrut-render-starter/app.py:56-58 | for every metadata map, a falsy `nome` or `sku` (empty string or zero) is cited exactly as if the key were absent, by `Produto` or `SKU?` |

## Left out

- The OpenAI embedding and chat calls are not modelled. They are network
  calls. Embedding vectors are never modelled. The chat completion enters
  `Answer` as a function parameter that returns a text or an error.
- Retrieval is not modelled. The chromadb query, the cosine ranking,
  `top_k`, and the store's own duplicate-id handling are third-party
  behaviour. Retrieval enters as a function parameter. Ingestion is
  modelled up to the records passed to `add`.
- PDF text extraction is not modelled. It is library behaviour. Its
  results are the input of `ManualIngest.Train`.
- CSV dialect sniffing and `DictReader` parsing are not modelled. They are
  library behaviour and file I/O. Rows are the input of `ProductIngest`.
  A cell that `DictReader` reports as `None` (a short row) is treated as
  an absent column. `row_get` treats both the same way.
- Flask routing, JSON parsing, the HTML/JS page and `app.run` are not
  modelled. They are HTTP and UI plumbing. `Ask` takes the already-parsed
  question. A non-string JSON value for `question` is not modelled.
- Environment-variable configuration and the API-key check are not
  modelled. Constants take their default values. Also left out: the
  missing-file errors, the logging and printed progress, and the
  traceback handler.
- Metadata values that are `None` are not modelled. Both ingestion
  scripts always store values. A `None` answer content from the model is
  not modelled either.
- Assistant.Answer: the order of the external calls is not modelled. Only
  their results are. The chosen prompt is stated through `AnswerOf`.
  Because `retrieve` is a function, both queries see the same question;
  their timing and side effects are not captured.
- ManualIngest.Train: a raising embedding or `add` call is not modelled.
  In the source the `except` at the end of the script catches the error,
  so the run stops with only the records added before it, and `total`
  counts only those. `Train` describes a run in which every call succeeds.
- ProductIngest.IndexProducts: a raising embedding or `add` call is not
  modelled. In the source it ends `main`, with the batches before it
  already added. `IndexProducts` describes a run in which every call
  succeeds.
- ManualIngest.ChunkText: `overlap` is a `nat`. A negative `overlap` would
  make the source skip characters between chunks, but the script never
  passes one. The requirement `size > 0` excludes a size the source would
  loop on forever. The script always uses 1000.
