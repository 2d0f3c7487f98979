/** The web assistant (app.py): for a question it retrieves from the manual
    collection and from the product collection, builds one context and a
    de-duplicated list of citations (`fontes`), chooses the prompt, asks the
    chat model, and answers the `/ask` request. Retrieval and the chat
    completion are external and enter as function parameters whose results
    are either a value or the text of the exception raised. */
module Assistant {
  import opened Wrappers
  import opened Text
  import opened Slices
  import opened Metadata
  import ManualIngest
  import ProductIngest

  /** The collection names (their defaults; the environment can override them). */
  const ManualCollection: string := "desfrut_apostila"
  const ProductCollection: string := "desfrut_produtos"

  /** What a query hands back: the documents and the metadata of the hits. */
  datatype Hits = Hits(docs: seq<string>, metas: seq<Meta>)

  /** A retrieval either returns hits or raises with a message. */
  type Retrieval = Result<Hits>

  /** The section header put before each collection's documents. */
  const ManualHeader: string := "=== APOSTILA ==="
  const ProductHeader: string := "\n=== PRODUTOS ==="

  /** The placeholder put in the context when a collection's retrieval raised. */
  function ManualUnavailable(e: string): string {
    "(Apostila indisponível: " + e + ")"
  }

  function ProductUnavailable(e: string): string {
    "(Produtos indisponíveis: " + e + ")"
  }

  /** The separator `"\n\n".join` puts between context parts. */
  const PartSep: string := "\n\n"

  /** `f"{m.get('file','apostila.pdf')} pág. {m.get('page','?')}"`: the
      defaults replace only an absent key. */
  function ManualCitation(m: Meta): string {
    Render(GetOr(m, "file", Str("apostila.pdf"))) + " pág. " + Render(GetOr(m, "page", Str("?")))
  }

  /** `f"{nome} ({sku})"` with `m.get("nome") or "Produto"` and
      `m.get("sku") or "SKU?"`: the defaults replace an absent key and a falsy value. */
  function ProductCitation(m: Meta): string {
    Render(GetTruthyOr(m, "nome", Str("Produto"))) + " (" + Render(GetTruthyOr(m, "sku", Str("SKU?"))) + ")"
  }

  /** What one collection contributes: context parts and raw citations. */
  datatype Section = Section(parts: seq<string>, citations: seq<string>)

  /** The number of `(document, metadata)` pairs `zip` yields. */
  function Pairs(h: Hits): nat {
    Min(|h.docs|, |h.metas|)
  }

  /** One collection's try-block: the placeholder when retrieval raised;
      nothing when it found no documents; otherwise the header followed by
      one part and one citation per zipped pair. */
  function SectionOf(r: Retrieval, header: string, unavailable: string -> string, cite: Meta -> string): Section {
    match r
    case Err(e) => Section([unavailable(e)], [])
    case Ok(h) =>
      if h.docs == [] then Section([], [])
      else Section([header] + h.docs[..Pairs(h)], seq(Pairs(h), k requires 0 <= k < Pairs(h) => cite(h.metas[k])))
  }

  function ManualSection(r: Retrieval): Section {
    SectionOf(r, ManualHeader, ManualUnavailable, ManualCitation)
  }

  function ProductSection(r: Retrieval): Section {
    SectionOf(r, ProductHeader, ProductUnavailable, ProductCitation)
  }

  /** The context parts of both collections, manual first. */
  function ContextParts(manual: Retrieval, products: Retrieval): seq<string> {
    ManualSection(manual).parts + ProductSection(products).parts
  }

  /** The raw citations of both collections, manual first, before de-duplication. */
  function RawCitations(manual: Retrieval, products: Retrieval): seq<string> {
    ManualSection(manual).citations + ProductSection(products).citations
  }

  /** The context sent to the model. */
  function Context(manual: Retrieval, products: Retrieval): string {
    Join(ContextParts(manual, products), PartSep)
  }

  /** `list(dict.fromkeys(s))`: each value kept at its first occurrence. */
  function Dedup<T(==)>(s: seq<T>): seq<T>
    decreases |s|
  {
    if s == [] then []
    else
      var d := Dedup(s[..|s| - 1]);
      if s[|s| - 1] in d then d else d + [s[|s| - 1]]
  }

  /** The citations returned with the answer. */
  function Fontes(manual: Retrieval, products: Retrieval): seq<string> {
    Dedup(RawCitations(manual, products))
  }

  /** Appends one collection's section: the body of one try-block of
      `build_context`. */
  method AddSection(parts: seq<string>, raw: seq<string>, r: Retrieval, header: string,
                    unavailable: string -> string, cite: Meta -> string)
    returns (parts': seq<string>, raw': seq<string>)
    ensures parts' == parts + SectionOf(r, header, unavailable, cite).parts
    ensures raw' == raw + SectionOf(r, header, unavailable, cite).citations
  {
    parts', raw' := parts, raw;
    match r
    case Err(e) =>
      parts' := parts' + [unavailable(e)];
    case Ok(h) =>
      if h.docs != [] {
        parts' := parts' + [header];
        var n := Min(|h.docs|, |h.metas|);
        for k := 0 to n
          invariant parts' == parts + [header] + h.docs[..k]
          invariant raw' == raw + seq(k, i requires 0 <= i < k => cite(h.metas[i]))
        {
          parts' := parts' + [h.docs[k]];
          raw' := raw' + [cite(h.metas[k])];
          assert h.docs[..k + 1] == h.docs[..k] + [h.docs[k]];
        }
      }
  }

  /** `build_context(question)`: both collections are queried, each in its own
      try-block, then the parts are joined and the citations de-duplicated. */
  method BuildContext(question: string, retrieve: (string, string) -> Retrieval)
    returns (context: string, fontes: seq<string>)
    ensures context == Context(retrieve(ManualCollection, question), retrieve(ProductCollection, question))
    ensures fontes == Fontes(retrieve(ManualCollection, question), retrieve(ProductCollection, question))
  {
    var parts: seq<string> := [];
    var raw: seq<string> := [];
    parts, raw := AddSection(parts, raw, retrieve(ManualCollection, question), ManualHeader, ManualUnavailable, ManualCitation);
    parts, raw := AddSection(parts, raw, retrieve(ProductCollection, question), ProductHeader, ProductUnavailable, ProductCitation);
    assert parts == ContextParts(retrieve(ManualCollection, question), retrieve(ProductCollection, question));
    assert raw == RawCitations(retrieve(ManualCollection, question), retrieve(ProductCollection, question));
    context := Join(parts, PartSep);
    fontes := Dedup(raw);
  }

  /** The two user prompts `answer` chooses between. */
  function EmptyPrompt(question: string): string {
    "Pergunta: " + question + "\n\n"
    + "Contexto (vazio). Diga que não encontrou" + " na base e ofereça uma orientação geral breve."
  }

  function ContextPrompt(question: string, context: string): string {
    "Pergunta: " + question + "\n\n" + "Contexto (use com prioridade," + " cite quando útil):\n" + context
  }

  /** `user_content`: the empty-context prompt when `context.strip()` is empty. */
  function UserContent(question: string, context: string): string {
    if Strip(context) == "" then EmptyPrompt(question) else ContextPrompt(question, context)
  }

  const SystemPrompt: string :=
    "Você é a assistente da Desfrut (sexshop em Manaus). "
    + "Responda acolhedor, objetivo e educativo. Priorize as evidências do contexto. "
    + "Se não houver no contexto, diga isso e dê orientação geral breve. "
    + "Evite conteúdo explícito. Para compras, direcione ao site/Tray."

  /** The model name (its default; the environment can override it). */
  const GenModel: string := "gpt-4o-mini"

  datatype Message = Message(role: string, content: string)

  /** The chat completion request `answer` sends. */
  datatype ChatRequest = ChatRequest(model: string, messages: seq<Message>, temperature: real)

  function RequestFor(question: string, context: string): ChatRequest {
    ChatRequest(GenModel, [Message("system", SystemPrompt), Message("user", UserContent(question, context))], 0.2)
  }

  /** The answer text and the citations. */
  datatype Reply = Reply(text: string, fontes: seq<string>)

  /** `answer(question)`: the reply of the model to the request built from the
      context, with the citations; an exception of the model call propagates. */
  method Answer(question: string, retrieve: (string, string) -> Retrieval, complete: ChatRequest -> Result<string>)
    returns (r: Result<Reply>)
    ensures r == AnswerOf(question, retrieve, complete)
  {
    var context, fontes := BuildContext(question, retrieve);
    var resp := complete(RequestFor(question, context));
    match resp
    case Ok(text) => r := Ok(Reply(text, fontes));
    case Err(e) => r := Err(e);
  }

  /** What `answer` produces, as a function of the external calls. */
  function AnswerOf(question: string, retrieve: (string, string) -> Retrieval, complete: ChatRequest -> Result<string>): Result<Reply> {
    var manual, products := retrieve(ManualCollection, question), retrieve(ProductCollection, question);
    match complete(RequestFor(question, Context(manual, products)))
    case Ok(text) => Ok(Reply(text, Fontes(manual, products)))
    case Err(e) => Err(e)
  }

  /** The JSON body of a `/ask` response. */
  datatype Body = Answered(answer: string, fontes: seq<string>) | Failed(error: string)

  datatype Response = Response(status: nat, body: Body)

  /** `POST /ask`: the question (missing counts as "") is stripped; a blank one
      is refused with 400 before anything is called; otherwise the stripped
      question is answered with 200, or the error is reported with 500. */
  method Ask(question: Option<string>, retrieve: (string, string) -> Retrieval, complete: ChatRequest -> Result<string>)
    returns (resp: Response)
    ensures Strip(question.ValueOr("")) == "" ==> resp == Response(400, Failed("Pergunta vazia."))
    ensures Strip(question.ValueOr("")) != "" ==>
      match AnswerOf(Strip(question.ValueOr("")), retrieve, complete)
      case Ok(reply) => resp == Response(200, Answered(reply.text, reply.fontes))
      case Err(e) => resp == Response(500, Failed(e))
  {
    var q := Strip(question.ValueOr(""));
    if q == "" {
      return Response(400, Failed("Pergunta vazia."));
    }
    var r := Answer(q, retrieve, complete);
    match r
    case Ok(reply) => resp := Response(200, Answered(reply.text, reply.fontes));
    case Err(e) => resp := Response(500, Failed(e));
  }

  // ---------------------------------------------------------------- properties

  /** A section adds no part and no citation exactly when its retrieval
      succeeded without documents; otherwise it starts with the header or is
      the single placeholder. */
  lemma SectionShape(r: Retrieval, header: string, unavailable: string -> string, cite: Meta -> string)
    ensures var s := SectionOf(r, header, unavailable, cite);
      (s.parts == [] && s.citations == [] <==> r.Ok? && r.value.docs == [])
      && (s.parts == [] <==> r.Ok? && r.value.docs == [])
      && (r.Err? ==> s.parts == [unavailable(r.error)] && s.citations == [])
      && (r.Ok? && r.value.docs != [] ==>
            s.parts[0] == header && |s.parts| == 1 + Pairs(r.value) && |s.citations| == Pairs(r.value))
  {
  }

  /** Part `k + 1` of a non-empty section is document `k` and citation `k`
      comes from metadata `k`: the parts keep the retrieval order. */
  lemma SectionOrder(h: Hits, header: string, unavailable: string -> string, cite: Meta -> string, k: nat)
    requires h.docs != [] && k < Pairs(h)
    ensures SectionOf(Ok(h), header, unavailable, cite).parts[k + 1] == h.docs[k]
    ensures SectionOf(Ok(h), header, unavailable, cite).citations[k] == cite(h.metas[k])
  {
  }

  /** A failing manual retrieval leaves the product section as it would be
      otherwise, and the other way round. */
  lemma FailureIsolated(e: string, manual: Retrieval, products: Retrieval)
    ensures ContextParts(Err(e), products) == [ManualUnavailable(e)] + ProductSection(products).parts
    ensures RawCitations(Err(e), products) == ProductSection(products).citations
    ensures ContextParts(manual, Err(e)) == ManualSection(manual).parts + [ProductUnavailable(e)]
    ensures RawCitations(manual, Err(e)) == ManualSection(manual).citations
  {
  }

  /** One non-blank part makes the `"\n\n"`-joined text non-blank. */
  lemma JoinNotBlank(parts: seq<string>, k: nat)
    requires k < |parts| && !Blank(parts[k])
    ensures !Blank(Join(parts, PartSep))
  {
    JoinBlankIffPartsBlank(parts, PartSep);
  }

  /** Every part a section contributes before its documents is non-blank: the
      header or the placeholder. */
  lemma FirstPartNotBlank(r: Retrieval, header: string, unavailable: string -> string, cite: Meta -> string)
    requires SectionOf(r, header, unavailable, cite).parts != []
    requires !Blank(header) && forall e :: !Blank(unavailable(e))
    ensures !Blank(SectionOf(r, header, unavailable, cite).parts[0])
  {
    if r.Err? {
      assert SectionOf(r, header, unavailable, cite).parts[0] == unavailable(r.error);
    }
  }

  lemma HeadersNotBlank()
    ensures !Blank(ManualHeader) && !Blank(ProductHeader)
    ensures forall e :: !Blank(ManualUnavailable(e)) && !Blank(ProductUnavailable(e))
  {
    assert !IsSpace(ManualHeader[0]);
    assert !IsSpace(ProductHeader[1]);
    forall e ensures !Blank(ManualUnavailable(e)) && !Blank(ProductUnavailable(e)) {
      assert !IsSpace(ManualUnavailable(e)[0]);
      assert !IsSpace(ProductUnavailable(e)[0]);
    }
  }

  /** The context is blank exactly when both retrievals succeeded and found no
      documents: a failure placeholder alone makes it non-blank. */
  lemma ContextBlankIff(manual: Retrieval, products: Retrieval)
    ensures Blank(Context(manual, products)) <==>
      manual.Ok? && manual.value.docs == [] && products.Ok? && products.value.docs == []
  {
    var m, p := ManualSection(manual).parts, ProductSection(products).parts;
    var parts := ContextParts(manual, products);
    SectionShape(manual, ManualHeader, ManualUnavailable, ManualCitation);
    SectionShape(products, ProductHeader, ProductUnavailable, ProductCitation);
    HeadersNotBlank();
    if m != [] {
      FirstPartNotBlank(manual, ManualHeader, ManualUnavailable, ManualCitation);
      JoinNotBlank(parts, 0);
    } else if p != [] {
      FirstPartNotBlank(products, ProductHeader, ProductUnavailable, ProductCitation);
      assert parts == p;
      JoinNotBlank(parts, 0);
    } else {
      assert parts == [];
      assert Context(manual, products) == "";
    }
  }

  /** The prompts differ: the empty-context prompt is never the other one. */
  lemma PromptsDiffer(question: string, context: string)
    ensures EmptyPrompt(question) != ContextPrompt(question, context)
  {
    var lead := "Pergunta: " + question + "\n\n";
    var e, c := "Contexto (vazio). Diga que não encontrou", "Contexto (use com prioridade,";
    assert e[10] == 'v' && c[10] == 'u';
    var e', c' := " na base e ofereça uma orientação geral breve.", " cite quando útil):\n";
    assert EmptyPrompt(question) == (lead + e) + e';
    assert ContextPrompt(question, context) == ((lead + c) + c') + context;
    assert EmptyPrompt(question)[|lead| + 10] == (lead + e)[|lead| + 10] == 'v';
    assert ContextPrompt(question, context)[|lead| + 10] == (lead + c)[|lead| + 10] == 'u';
  }

  /** The empty-context prompt is chosen exactly when the context is blank. */
  lemma EmptyPromptIff(question: string, context: string)
    ensures UserContent(question, context) == EmptyPrompt(question) <==> Blank(context)
  {
    StripEmptyIffBlank(context);
    PromptsDiffer(question, context);
  }

  /** So `answer` uses the empty-context prompt, as the user message of the
      request it sends, exactly when both retrievals succeeded without documents. */
  lemma EmptyPromptWhenNothingFound(question: string, manual: Retrieval, products: Retrieval)
    ensures UserContent(question, Context(manual, products)) == EmptyPrompt(question) <==>
      manual.Ok? && manual.value.docs == [] && products.Ok? && products.value.docs == []
    ensures RequestFor(question, Context(manual, products)).messages[1].content == EmptyPrompt(question) <==>
      manual.Ok? && manual.value.docs == [] && products.Ok? && products.value.docs == []
  {
    EmptyPromptIff(question, Context(manual, products));
    ContextBlankIff(manual, products);
  }

  predicate Distinct<T(==)>(s: seq<T>) {
    forall a, b | 0 <= a < b < |s| :: s[a] != s[b]
  }

  /** A value is kept exactly when it occurs. */
  lemma {:induction false} DedupMembers<T>(s: seq<T>, x: T)
    ensures x in Dedup(s) <==> x in s
    decreases |s|
  {
    if s != [] {
      var init := s[..|s| - 1];
      DedupMembers(init, x);
      assert s == init + [s[|s| - 1]];
    }
  }

  /** `dict.fromkeys` keeps one copy of each citation, loses none, and keeps
      them in the order of their first occurrence. */
  lemma {:induction false} DedupSpec<T>(s: seq<T>)
    ensures Distinct(Dedup(s))
    ensures forall x :: x in Dedup(s) <==> x in s
    ensures forall a, b | 0 <= a < b < |Dedup(s)| :: IndexOf(s, Dedup(s)[a]) < IndexOf(s, Dedup(s)[b])
    decreases |s|
  {
    if s != [] {
      var init, last := s[..|s| - 1], s[|s| - 1];
      DedupSpec(init);
      forall x ensures x in Dedup(s) <==> x in s {
        DedupMembers(s, x);
      }
      assert s == init + [last];
      var d := Dedup(init);
      forall x | x in init ensures IndexOf(s, x) == IndexOf(init, x) {
        IndexOfExtend(init, last, x);
      }
      if last !in d {
        assert IndexOf(s, last) == |init|;
        forall a | 0 <= a < |d| ensures IndexOf(s, d[a]) < |init| {
          assert d[a] in d;
          DedupMembers(init, d[a]);
          IndexOfExtend(init, last, d[a]);
        }
      }
    }
  }

  /** A list without repetitions is left as it is. */
  lemma {:induction false} DedupDistinct<T>(s: seq<T>)
    requires Distinct(s)
    ensures Dedup(s) == s
    decreases |s|
  {
    if s != [] {
      var init, last := s[..|s| - 1], s[|s| - 1];
      DedupDistinct(init);
      assert last !in init;
      assert s == init + [last];
    }
  }

  /** De-duplicating twice is de-duplicating once. */
  lemma DedupIdempotent<T>(s: seq<T>)
    ensures Dedup(Dedup(s)) == Dedup(s)
  {
    DedupSpec(s);
    DedupDistinct(Dedup(s));
  }

  /** The returned citations: no repetitions, exactly the raw citations of
      both collections, in first-seen order. */
  lemma FontesSpec(manual: Retrieval, products: Retrieval)
    ensures Distinct(Fontes(manual, products))
    ensures forall x :: x in Fontes(manual, products) <==> x in RawCitations(manual, products)
    ensures forall a, b | 0 <= a < b < |Fontes(manual, products)| ::
      IndexOf(RawCitations(manual, products), Fontes(manual, products)[a])
      < IndexOf(RawCitations(manual, products), Fontes(manual, products)[b])
  {
    DedupSpec(RawCitations(manual, products));
  }

  /** A chunk stored by the manual ingestion is cited by file name and page number. */
  lemma CitationOfManualChunk(file: string, page: nat)
    ensures ManualCitation(ManualIngest.PageMeta(file, page)) == file + " pág. " + Decimal(page)
  {
  }

  /** A product stored by the product ingestion is cited by its cleaned name and
      sku; an empty one is replaced by its default. */
  lemma CitationOfProduct(p: ProductIngest.Product)
    ensures ProductCitation(ProductIngest.ProductMeta(p))
      == (if p.nome != "" then p.nome else "Produto") + " (" + (if p.sku != "" then p.sku else "SKU?") + ")"
  {
  }

  /** The manual citation's defaults (`m.get(key, default)`) stand in only for
      an absent key: for every metadata map, an empty `file` or `page` is
      printed as it is, while an absent one prints `apostila.pdf` or `?`. */
  lemma ManualDefaults(m: Meta)
    ensures ManualCitation(m["file" := Str("")]) == " pág. " + Render(GetOr(m, "page", Str("?")))
    ensures ManualCitation(m - {"file"}) == "apostila.pdf pág. " + Render(GetOr(m, "page", Str("?")))
    ensures ManualCitation(m["page" := Str("")]) == Render(GetOr(m, "file", Str("apostila.pdf"))) + " pág. "
    ensures ManualCitation(m - {"page"}) == Render(GetOr(m, "file", Str("apostila.pdf"))) + " pág. ?"
  {
    assert "page"[0] != "file"[0];
    var page, file := GetOr(m, "page", Str("?")), GetOr(m, "file", Str("apostila.pdf"));
    assert GetOr(m["file" := Str("")], "page", Str("?")) == page;
    assert GetOr(m - {"file"}, "page", Str("?")) == page;
    assert GetOr(m["page" := Str("")], "file", Str("apostila.pdf")) == file;
    assert GetOr(m - {"page"}, "file", Str("apostila.pdf")) == file;
    assert "" + " pág. " + Render(page) == " pág. " + Render(page);
  }

  /** The product citation's defaults (`m.get(key) or default`) stand in for an
      absent key and for a falsy value alike: for every metadata map, storing
      an empty string or zero under `nome` or `sku` cites it as if the key
      were absent. */
  lemma ProductDefaults(m: Meta, v: Scalar)
    requires !Truthy(v)
    ensures ProductCitation(m["nome" := v]) == ProductCitation(m - {"nome"})
    ensures ProductCitation(m["sku" := v]) == ProductCitation(m - {"sku"})
    ensures ProductCitation(m - {"nome"}) == "Produto (" + Render(GetTruthyOr(m, "sku", Str("SKU?"))) + ")"
    ensures ProductCitation(m - {"sku"}) == Render(GetTruthyOr(m, "nome", Str("Produto"))) + " (SKU?)"
  {
    assert "sku"[0] != "nome"[0];
    var nome, sku := GetTruthyOr(m, "nome", Str("Produto")), GetTruthyOr(m, "sku", Str("SKU?"));
    assert GetTruthyOr(m["nome" := v], "nome", Str("Produto")) == Str("Produto");
    assert GetTruthyOr(m - {"nome"}, "nome", Str("Produto")) == Str("Produto");
    assert GetTruthyOr(m["nome" := v], "sku", Str("SKU?")) == sku;
    assert GetTruthyOr(m - {"nome"}, "sku", Str("SKU?")) == sku;
    assert GetTruthyOr(m["sku" := v], "sku", Str("SKU?")) == Str("SKU?");
    assert GetTruthyOr(m - {"sku"}, "sku", Str("SKU?")) == Str("SKU?");
    assert GetTruthyOr(m["sku" := v], "nome", Str("Produto")) == nome;
    assert GetTruthyOr(m - {"sku"}, "nome", Str("Produto")) == nome;
  }
}
