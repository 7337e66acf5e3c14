# themison-rag-backend: the deterministic core of the retrieval pipeline

This project models the glue code around the backend's retrieval-augmented
generation pipeline, and proves properties of it. That code does six things:

- it cleans page text;
- it prepares the query for hybrid search;
- it batches texts for the embedding model;
- it assembles document and chunk records and stores them transactionally;
- it runs the upload route (per-page error sentinels, the valid-page filter,
  indexing in batches of 20, aggregation);
- it builds the templated answer.

The PDF reader, the embedding model, the `hybrid_search` stored procedure, the
text splitter, Unicode NFC and `str.lower()` are foreign calls. The model
receives each of them as a function-typed parameter.

Modules, one per component:

| module | file | component |
|---|---|---|
| `Wrappers` | `wrappers.dfy` | `Option` and `Result` |
| `Text` | `text.dfy` | Python's `str.strip`, `str.split()`, `join`, `split(c)`, `in` and `str(int)`, written out over Python's whitespace set |
| `Documents` | `documents.dfy` | LangChain `Document`: page content plus a metadata dict |
| `Preprocessing` | `preprocessing.dfy` | `preprocessing(text)` |
| `Serialization` | `serialization.dfy` | `_ensure_serializable` over JSON-like values and float-dtype numpy arrays |
| `TsQuery` | `tsquery.dfy` | `preprocess_query_for_tsquery` |
| `Retrievers` | `retrievers.dfy` | the four retriever modules, written once, with their three `create_embeddings` variants |
| `Batching` | `batching.dfy` | `encode_texts` and the load-once `get_embedding_model` cache (a class) |
| `Encoding` | `encoding.dfy` | `encode_doc` and its batch loop (a method) |
| `DocumentService` | `document_service.dfy` | `parse_pdf`, the session, `insert_document_with_chunks` and `process_pdf_complete` (methods over a `Session` class) |
| `Upload` | `upload.dfy` | `process_pdf` and `upload_documents` of both upload routes; the user id is an `Option`, `None` in the unauthenticated route |
| `Generation` | `generation.dfy` | `generate_response` (methods proved against a specification function) |

Where the code loops and mutates, the model does too. There are five such places:

- the `encode_doc` batch loop;
- the `parse_pdf` text accumulation;
- the session adds, commit and rollback of `insert_document_with_chunks`;
- the upload batch loop with its `all_chunks` accumulator;
- the `response +=` and `document_info.append` steps of `generate_response`.

Each of these is a `method` with loop invariants. It is proved equal to a
specification function, and the properties are lemmas about that function.

Notes on the code as written, which the model follows:

- `encode_doc`'s default `chunk_overlap` is 300, while `chunk_content`'s is 200.
- `parse_pdf` rejects a text that is whitespace only, while the upload route only
  rejects an empty page or the sentinel.
- Failures are Python exceptions with formatted messages, not typed error kinds.
  The model carries those messages.
- `insert_document_with_chunks` always creates a new document. No path attaches
  chunks to an existing document, so none fails for a missing one.

## Model

| member | source | states |
|---|---|---|
| Text.Strip | app/services/retrieval/retriever.py:12-14 | The stripped query is a contiguous slice of the input. Only whitespace is cut on either side, and the result neither starts nor ends with whitespace. It is empty exactly when the input is all whitespace. |
| Text.StripIdempotent | app/services/retrieval/utils/retriever.py:10-12 | Stripping twice is stripping once. |
| Text.StripOfTrimmed | app/utils/retriever.py:10-12 | A string that neither starts nor ends with whitespace is returned unchanged. |
| Text.Words | app/services/retrieval/retriever.py:25 | `str.split()` yields only non-empty words that contain no whitespace. |
| Text.WordsOfJoin | app/services/retrieval/retriever.py:25-32 | Splitting words joined by a whitespace separator gives back exactly those words. |
| Text.StripNonEmpty | app/generating_processing/generation.py:46 | `[x.strip() for x in ws if x.strip()]` keeps at most as many pieces as it is given. Every piece kept is non-empty and starts and ends with a non-space. |
| Text.StripNonEmptyPieces | app/generating_processing/generation.py:46 | Every piece kept is `Strip` of some input piece. |
| Text.StripNonEmptyOfWords | app/services/retrieval/retriever.py:25 | On the output of `split()`, the strip-and-filter comprehension changes nothing. |
| Text.SplitOn | app/generating_processing/generation.py:46 | `str.split(c)` gives one more piece than there are occurrences of `c`. No piece contains `c`, and joining the pieces with `c` rebuilds the input. |
| Text.ContainsAt | app/generating_processing/generation.py:30 | The substring test `pat in s` holds exactly when `pat` occurs at some index of `s`. |
| Text.NatToString | app/api/routes/protected/upload.py:66 | The decimal rendering of a number is a non-empty string of digits. |
| Text.NatToStringValue | app/api/routes/protected/upload.py:66 | The decimal rendering reads back as the same number. |
| Preprocessing.RemoveNul | app/documents_processing/preprocessing.py:8 | No NUL remains in the output. The length drops by exactly the number of NULs. The output holds exactly the characters of the input other than NUL. A NUL-free input is unchanged. |
| Preprocessing.ReplaceCr | app/documents_processing/preprocessing.py:11 | Replacing lone CRs keeps the length, leaves no CR, and never introduces a NUL. |
| Preprocessing.ReplaceCrLf | app/documents_processing/preprocessing.py:11 | A CR-free input is unchanged, and no NUL is introduced. |
| Preprocessing.Preprocess | app/documents_processing/preprocessing.py:3-16 | The cleaned page text holds no NUL and no CR, whatever NFC returns. |
| Preprocessing.TwoReplacesNormalize | app/documents_processing/preprocessing.py:11 | The two chained replaces turn every CRLF pair and every lone CR into exactly one LF. |
| Preprocessing.NormalizeLength | app/documents_processing/preprocessing.py:11 | Normalising line endings shortens the text by exactly the number of CRLF pairs. |
| Preprocessing.NormalizeKeepsOthers | app/documents_processing/preprocessing.py:10-11 | Leave out line-ending characters, and the normalised text has every other character of the input, in order. No whitespace is collapsed. |
| Preprocessing.RemoveNulKeepsOthers | app/documents_processing/preprocessing.py:8 | NUL removal keeps every other character in order. |
| Preprocessing.CleanupOutput | app/documents_processing/preprocessing.py:8-11 | The cleanup of the NFC text holds no NUL and no CR. Its length is the input length minus the NULs minus the CRLF pairs that remain once NULs are gone. Apart from NUL, CR and LF, it keeps every character in order. |
| Preprocessing.CleanupIdempotent | app/documents_processing/preprocessing.py:8-11 | Cleaning an already cleaned text changes nothing. |
| Preprocessing.NulBetweenCrAndLf | app/documents_processing/preprocessing.py:8-11 | Because NULs go first, `\r\0\n` becomes a single `\n`. In the other order it would become two. |
| Serialization.ToList | app/services/retrieval/retriever.py:77-78 | `ndarray.tolist()` gives a nested list with no array inside, and the same numbers in the same order. |
| Serialization.EnsureSerializable | app/services/retrieval/retriever.py:75-84 | The output contains no array node. An array becomes its `tolist()`. A list keeps its length and order, item i becoming the rewrite of item i. A dict keeps its keys in order, each value rewritten under its own key. A scalar is unchanged. |
| Serialization.EnsureSerializableFixpoint | app/services/retrieval/utils/retriever.py:75-84 | A value is left unchanged exactly when it contains no array. |
| Serialization.EnsureSerializableFixesArrayFree | app/utils/retriever.py:75-84 | An array-free value is returned unchanged. |
| Serialization.EnsureSerializableIdempotent | app/services/retrieval/retriever.py:75-84 | Serialising twice is serialising once. |
| TsQuery.ReplacePunct | app/services/retrieval/retriever.py:22 | The regex substitution keeps the length. It puts a space exactly where the input has a character of the special class, and keeps every other character. |
| TsQuery.QueryWordsShape | app/services/retrieval/retriever.py:22-25 | The query words are the `split()` words of the de-punctuated query. Each is non-empty and contains no whitespace and no special character. |
| TsQuery.FormatTsQueryShape | app/services/retrieval/retriever.py:22-32 | The tsquery is the words joined by `" & "`. It is `""` exactly when no word survives. No special character appears except the `&` of the separators. |
| TsQuery.JoinNoPunctExceptAmp | app/services/retrieval/utils/retriever.py:30-32 | Joining punctuation-free words with `" & "` puts a special character only at the separators' `&`. |
| TsQuery.ReplacePunctJoin | app/utils/retriever.py:22-32 | Applied to punctuation-free words joined by `" & "`, the substitution gives the same words joined by three spaces. |
| TsQuery.FormatTsQueryIdempotent | app/services/retrieval/retriever.py:16-34 | Formatting a formatted tsquery changes nothing. |
| Documents.Contents | app/services/indexing/encoding.py:21 | `[doc.page_content for doc in chunks]` keeps one text per document, in order. |
| Documents.SplitDocuments | app/services/indexing/document_service.py:71-88 | Every chunk carries the metadata of one of the input documents. |
| Documents.SplitOneInherits | app/services/indexing/document_service.py:81-87 | Chunking a single document gives chunks that all carry its metadata. |
| Documents.SplitOnePieces | app/services/indexing/document_service.py:81-87 | Chunking a single document gives exactly the splitter's pieces of its text, in order, each with that document's metadata. |
| Documents.SplitDocumentsAppend | app/services/indexing/document_service.py:71-88 | The chunks of a concatenation of documents are the chunks of each part, in order, so documents stay in order. |
| Retrievers.CreateEmbeddings | app/services/retrieval/retriever.py:36-43 | The embedding of the stripped query. Which one depends on the module. The list provider gives its first row, or `[]` when it returns none (app/services/retrieval/retriever.py:43). The batch encoder gives its first row, and fails with `IndexError` when it returns none (app/services/retrieval/utils/retriever.py:38-42). The single-string model gives its whole vector (app/utils/retriever.py:38-42; app/query_processing/retriever.py:11-15). |
| Retrievers.EmbeddingOfStripped | app/services/retrieval/utils/retriever.py:34-44 | Two queries that differ only in surrounding whitespace get the same embedding, or the same error. |
| Retrievers.CreateEmbeddingsAgree | app/utils/retriever.py:34-44 | When the embedder embeds text by text with `f`, the embedding is `f` of the stripped query, in every variant. |
| Retrievers.ResolveOverride | app/services/retrieval/retriever.py:57 | An override that is not `None` wins, including 0. Otherwise the factory value is used. |
| Retrievers.DefaultRetriever | app/services/retrieval/retriever.py:45-47 | The factory's default match count is 10. |
| Retrievers.SearchRequest | app/services/retrieval/retriever.py:54-66 | The search receives the raw query text, the embedding of the stripped query, and the resolved count. Building the request fails only when the embedding fails, and always does then. |
| Retrievers.Retrieve | app/services/retrieval/retriever.py:49-71 | `retrieve` fails when the embedding fails, and the model has no other failure (the search call's own failures are left out). Otherwise it returns the search rows passed through `_ensure_serializable`, so the result contains no arrays. |
| Retrievers.SearchSeesRawText | app/utils/retriever.py:57-63 | Queries that differ only in surrounding whitespace get the same embedding and count. Each is sent to the search as its own raw text. |
| Retrievers.RetrievePassesArrayFreeRows | app/services/retrieval/utils/retriever.py:70-71 | Array-free search rows come back unchanged. |
| Retrievers.DefaultWeightedRetriever | app/query_processing/retriever.py:17-21 | The factory defaults are count 10, threshold 0.0 and alpha 0.5. |
| Retrievers.WeightedSearchRequest | app/query_processing/retriever.py:41-58 | Alpha, threshold and count each resolve independently: the override when it is not `None`, else the factory value. The search gets the raw query and the embedding of the stripped query. |
| Retrievers.RetrieveWeighted | app/query_processing/retriever.py:60-63 | The rows come back as storage returned them, in storage order. An empty result is `[]`. |
| Batching.Batches | app/services/indexing/utils/embeddings.py:40 | The slicing comprehension gives no batch exactly for an empty input. Every batch holds between 1 and `batch_size` texts, and every batch but the last holds exactly `batch_size`. |
| Batching.BatchesFlatten | app/services/indexing/utils/embeddings.py:40 | The batches concatenated give back the input. |
| Batching.BatchCount | app/services/indexing/utils/embeddings.py:40 | There are ceil(n / batch_size) batches. |
| Batching.BatchIsSlice | app/services/indexing/utils/embeddings.py:40 | Batch k is the slice `texts[k*batch_size : k*batch_size + batch_size]`, cut at the end of the input. |
| Batching.StackPerText | app/services/indexing/utils/embeddings.py:41-43 | Over any batching, stacking the results of a text-by-text model gives the model of each text, in order. |
| Batching.EncodeCallsShape | app/services/indexing/utils/embeddings.py:20-43 | An empty input makes no model call. Up to `batch_size` texts make exactly one call with all the texts. More texts make ceil(n / batch_size) calls on consecutive full slices that cover the input in order. The result is the per-call rows stacked in call order. The function fails exactly when there are texts and `batch_size < 1`. |
| Batching.EncodedTextsPerText | app/services/indexing/utils/embeddings.py:36-43 | Batching does not change the result: row i is the embedding of text i, for every batch size of at least 1. |
| Batching.ChooseSource | app/services/indexing/utils/embeddings.py:11-18 | The model is loaded from the local cache path if it exists, else from the hub model name. |
| Batching.EmbeddingModelCache.GetEmbeddingModel | app/services/indexing/utils/embeddings.py:8-18 | The first call loads a model and caches it. Later calls return the cached model without loading again, so at most one load ever happens. |
| Batching.EmbeddingModelCache.EncodeTexts | app/services/indexing/utils/embeddings.py:20-43 | Returns `encode_texts`' result. An empty input leaves the cache untouched and loads nothing. Otherwise the model is cached, and at most one load has happened. When nothing was cached before, the cached model is the one `ChooseSource` picks. |
| Encoding.PreprocessDocs | app/services/indexing/encoding.py:11-15 | The parallel map keeps the input order and each document's metadata. Each content is the preprocessed original, holding no NUL and no CR. |
| Encoding.EncodeDoc | app/services/indexing/encoding.py:9-30 | With `batch_size >= 1`, the model calls are exactly the consecutive batches of the chunk texts, and the embeddings are their results concatenated. The result holds both the embeddings and the chunks. A negative batch size encodes nothing, and 0 raises. |
| Encoding.EmbedBatches | app/services/indexing/encoding.py:24-28 | The loop visits the consecutive slices from 0 in steps of `batch_size`. `all_embeddings` ends as the in-order concatenation of `encode(batch)`. |
| Encoding.EncodeDocAligned | app/services/indexing/encoding.py:21-28 | With a text-by-text model there is one embedding per chunk, embedding i belonging to chunk i. Zero chunks make no model call. |
| DocumentService.ParsePdf | app/services/indexing/document_service.py:42-63 | `parse_pdf` through its loop equals `ParsedText`: the page texts each followed by a newline, or the failure. |
| DocumentService.ExtractedFailureSticks | app/services/indexing/document_service.py:54-55 | Once a page's extraction raises, the whole extraction fails with that error. |
| DocumentService.PagesTextJoin | app/services/indexing/document_service.py:54-55 | The accumulated text is the page texts joined by newlines, plus a final newline. |
| DocumentService.PagesTextBlank | app/services/indexing/document_service.py:54-58 | The accumulated text is whitespace only exactly when every page text is. |
| DocumentService.ParsedTextSucceeds | app/services/indexing/document_service.py:42-63 | Parsing succeeds exactly when the PDF loads, every page extracts, and some page has a non-space character. The text is then the pages joined by newlines, plus a final newline. Every failure is a `ValueError` prefixed "Failed to parse PDF: ". |
| DocumentService.WithChunkIndex | app/services/indexing/document_service.py:137 | `{**metadata, "chunk_index": i}` adds the key `chunk_index`, set to i, and keeps every other key and its value. |
| DocumentService.ChunkRows | app/services/indexing/document_service.py:131-141 | `zip` truncates to the shorter of chunks and embeddings. Row i pairs chunk i with embedding i, has index i, points at the new document, and carries the chunk's metadata plus its index. |
| DocumentService.ChunkIndicesDistinct | app/services/indexing/document_service.py:131-137 | Chunk indices run 0..N-1 with no duplicate, both in the column and in the metadata. |
| DocumentService.ChunkRowsInherit | app/services/indexing/document_service.py:137 | Chunks that share metadata m give rows whose metadata is m with their own index. |
| DocumentService.ChunkRecords | app/services/indexing/document_service.py:131-141 | One record per row, in order. |
| DocumentService.Session.Add | app/services/indexing/document_service.py:127 | `add` appends to the pending rows, and the committed rows are unchanged. |
| DocumentService.Session.Flush | app/services/indexing/document_service.py:128 | `flush` changes neither the pending nor the stored rows (no `modifies` clause); it raises exactly the injected fault. |
| DocumentService.Session.Commit | app/services/indexing/document_service.py:143 | A successful commit moves every pending row into the stored ones. A failed commit changes nothing. |
| DocumentService.Session.Rollback | app/services/indexing/document_service.py:149 | `rollback` drops the pending rows and keeps the stored ones. |
| DocumentService.InsertError | app/services/indexing/document_service.py:148-153 | An `IntegrityError` becomes a `ValueError`. Anything else becomes a `RuntimeError` with the insertion message. |
| DocumentService.InsertDocumentWithChunks | app/services/indexing/document_service.py:103-153 | All or nothing. On success the document row is stored, followed by its chunk rows in index order. A failed flush or commit rolls back and stores nothing of this insertion, and a failed table creation touches nothing. A failing `refresh` leaves the committed rows stored but still raises. |
| DocumentService.LastSegment | app/services/indexing/document_service.py:168 | `url.split("/")[-1]` is the suffix of the URL after its last `/`, and holds no `/`. |
| DocumentService.Title | app/services/indexing/document_service.py:186 | The title is the filename, or "Untitled Document" when the filename is empty. It is never empty. |
| DocumentService.PdfMetadata | app/services/indexing/document_service.py:174 | The metadata is exactly `filename` plus the content type `application/pdf`. |
| DocumentService.ProcessPdfComplete | app/services/indexing/document_service.py:156-199 | Any failure is a `RuntimeError` starting "PDF processing failed: ", with the failing step's message. A parse or embedding failure, or a failure to create the tables, leaves the session unchanged. A flush or commit failure rolls back, so nothing is stored and nothing is pending. A refresh failure comes after the commit, so the rows stay stored while the call fails. On success, the stored document is titled from the URL's last segment and holds the cleaned text and the PDF metadata. Its chunks follow it, each with that metadata plus its index, and nothing is left pending. |
| Upload.DisplayName | app/api/routes/protected/upload.py:25 | `file.filename or "unnamed.pdf"` is never empty, and is the filename when that is non-empty. |
| Upload.PageMetadata | app/api/routes/protected/upload.py:56-72 | Page metadata holds the source, the page and the total pages. It holds `user_id` exactly in the authenticated route, `error` exactly for a failed page, and no other key. |
| Upload.ExtractPage | app/api/routes/protected/upload.py:51-74 | Page k (0-based) gets page number k+1. A successful extraction keeps its text and has no error key. A failed one becomes the sentinel `[Error extracting page k+1]` with the error under `error`, instead of raising. |
| Upload.ExtractPages | app/api/routes/protected/upload.py:77-79 | One page per extraction outcome, in page-index order. |
| Upload.ExtractedPageValid | app/api/routes/protected/upload.py:82 | A page is valid exactly when its extraction succeeded with a non-empty text that is not the sentinel of its own page number. |
| Upload.ValidPages | app/api/routes/protected/upload.py:82 | The filter keeps only valid pages, each taken from the input in order. It is empty exactly when no page is valid. |
| Upload.ValidPagesOne | app/api/routes/protected/upload.py:82 | A single page is kept exactly when it is valid. |
| Upload.ValidPagesAppend | app/api/routes/upload.py:69 | The filter works page by page: the valid pages of a concatenation are those of each part, concatenated. With `ValidPagesOne`, every valid page is kept, no other, in relative order. |
| Upload.IndexAllSucceeds | app/api/routes/protected/upload.py:92-101 | The batch loop succeeds exactly when every batch indexes. Each batch is then submitted once, in order. On failure, indexing stops at the first failing batch. |
| Upload.IndexAllIsSum | app/api/routes/upload.py:79-88 | When every batch indexes, the chunk total is the sum of the per-batch counts. |
| Upload.UploadMetadata | app/api/routes/protected/upload.py:27-32 | The authenticated route passes `user_id`, `original_filename` and `upload_time`. The other route passes no metadata. |
| Upload.ProcessPdf | app/api/routes/protected/upload.py:17-120 | `process_pdf` never raises. A failed read or a failing batch gives "Error processing file: …", an unloadable PDF gives "Error loading PDF: …", and no valid page gives the no-text failure with nothing indexed. Otherwise the valid pages are submitted in consecutive batches of 20. |
| Upload.IndexBatches | app/api/routes/upload.py:79-88 | The loop with the `all_chunks` accumulator equals the batch sum over `Batches(valid, 20)`. It returns the first error if a batch raises, and records each submitted batch. |
| Upload.ProcessedFileSuccess | app/api/routes/protected/upload.py:103-111 | A success reports every page and the number of valid ones, at least 1 and at most all of them. The valid pages were indexed in consecutive batches of at most 20 that cover each page once, in order. The reported chunks are the sum of the batch counts. |
| Upload.NoValidPageFails | app/api/routes/upload.py:71-76 | A PDF whose every page failed, came out empty or equals its sentinel is a failure, and nothing is indexed. |
| Upload.SuccessCount | app/api/routes/protected/upload.py:144 | The number of successes is at most the number of files. |
| Upload.AggregatesAppend | app/api/routes/protected/upload.py:137-144 | Both aggregates add up over concatenated result lists. |
| Upload.AggregatesOfFailures | app/api/routes/upload.py:121-128 | Failed files count for nothing: with no success, both aggregates are 0. |
| Upload.AllSucceeded | app/api/routes/protected/upload.py:144 | The success count equals the number of files exactly when every file succeeded. |
| Upload.UploadDocuments | app/api/routes/protected/upload.py:123-151 | Every file is processed, with its result in upload order, and each file's metadata carries its own clock reading. The summary counts the successful files, and the chunks of those files only (at most one success per file). The user id is echoed only by the authenticated route. |
| Generation.SortByIdOrders | app/generating_processing/generation.py:6 | `sorted(..., key=id)` orders by ascending id and is a permutation of the input. |
| Generation.SortByIdStable | app/generating_processing/generation.py:6 | The sort is stable: the rows sharing an id keep their input order. |
| Generation.SortByIdSorts | app/generating_processing/generation.py:6 | The sort is ordered, a permutation, the same length, and stable for every id. |
| Generation.StableSortUnique | app/generating_processing/generation.py:6 | Two id-ordered sequences with the same rows per id, in the same order, are equal. So a stable sort's result is determined by its input. |
| Generation.KeyFilterMembers | app/generating_processing/generation.py:6 | The rows of one id are exactly the input rows with that id. |
| Generation.InfoOf | app/generating_processing/generation.py:11-14 | Content is kept. A missing metadata is treated as `{}`, a missing source becomes "Unknown source", and a missing page becomes "Unknown page". |
| Generation.Infos | app/generating_processing/generation.py:9-21 | One info per row, in the same order. |
| Generation.CollectInfo | app/generating_processing/generation.py:9-21 | The `document_info.append` loop builds `Infos` of the sorted rows. |
| Generation.FirstMentioning | app/generating_processing/generation.py:30 | `next(...)` gives an entry of the list that mentions one of the words. |
| Generation.FirstMentioningIsFirst | app/generating_processing/generation.py:30-40 | `next(...)` finds an entry exactly when some entry mentions one of the words, and it finds the first such entry. |
| Generation.Shown | app/generating_processing/generation.py:47 | `bullet_points[:4]` is a prefix of the points, of length `min(4, n)`. |
| Generation.Truncate | app/generating_processing/generation.py:48-49 | A point of at most 100 characters is kept. A longer one becomes its first 100 characters plus "...", so never more than 103 characters. |
| Generation.GenerateResponse | app/generating_processing/generation.py:3-57 | The `response +=` construction builds exactly `Response` of the documents: prefix, internship, company, responsibilities and sources, in that order. |
| Generation.AppendBullets | app/generating_processing/generation.py:47-50 | The bullet loop, which reassigns `point` under truncation, appends the bullet lines of the first four points. |
| Generation.AppendSources | app/generating_processing/generation.py:53-55 | The footer loop appends one source line per info, in order. |
| Generation.KeywordSentences | app/generating_processing/generation.py:30-37 | The internship sentence appears exactly when some row's lowercased content contains "internship". The company sentence appears exactly when some row's contains "themison". Otherwise each is absent. |
| Generation.ResponsibilitiesFromFirstRow | app/generating_processing/generation.py:40-50 | The responsibilities section is present exactly when some row mentions "responsibilities" or "duties". Its bullets come from the first such row in id order. |
| Generation.BulletPointsShape | app/generating_processing/generation.py:45-50 | Content without "•" gives no bullets. At most 4 bullets are shown. Each is non-empty and holds no "•". Each is the stripped form of a piece of the content split at "•", and stays within 103 characters after truncation. |
| Generation.BulletCount | app/generating_processing/generation.py:50 | The bullet text has exactly one "•" per point shown. |
| Generation.FooterAppend | app/generating_processing/generation.py:54-55 | The footer of concatenated infos is the concatenation of their footers: one line per row, in order. |
| Generation.ResponseFrame | app/generating_processing/generation.py:27-55 | The response always begins with the fixed opening sentence. It ends with the sources heading, then one `- source, page page` line per row in id order. |
| Generation.ResponseIgnoresArrivalOrder | app/generating_processing/generation.py:6 | When the retrieved rows have distinct ids, the response does not depend on the order in which they arrived. |

## Left out

- Unicode NFC, `str.lower()`, the text splitter (`RecursiveCharacterTextSplitter`), the embedding model, `preprocess_text` and `hybrid_search` are foreign code. They are function-typed parameters, and only their results' use is modelled.
- PDF reading, HTTP fetching, file reading, uuid generation and the clock are I/O. The extraction outcomes, the read outcome, the document id and the upload time are inputs. `Upload.UploadDocuments` takes one clock reading per file, as each `process_pdf` call reads the clock itself.
- Concurrency is modelled sequentially: the thread pool, `asyncio.gather` and `asyncio.to_thread`. Only the input-order preservation these constructs guarantee is kept.
- Embedding values are floating point and are treated as opaque rows. numpy object-dtype arrays are not modelled.
- `_ensure_serializable` on dicts: keys are a sequence of entries. Python's hashing and dict identity are not modelled.
- Serialization.NdArray: only float-dtype arrays are modelled. `tolist()` of an integer- or bool-dtype array, which gives Python ints or bools, is not modelled. The retrievers only see float embeddings.
- Documents.MetaValue: only string and integer metadata values are modelled. Floats, bools and `None`, which `f"{v}"` renders as e.g. `"None"`, are not modelled. The indexing pipeline only writes strings and integers.
- The numeric result of `np.vstack` on arrays of different widths is not modelled. Stacking is row concatenation.
- The load-once cache is a class with a load counter. In the source only the batch-encoder retriever variant draws on it; the model's retriever (`Retrievers.RowsFor`) calls the `Batching.EncodedTexts` function directly and bypasses the `EmbeddingModelCache` class. The other variants take their model as a parameter.
- Retrievers.Retrieve: the `hybrid_search` call is a total function here, so an exception raised by `supabase.rpc(...).execute()` is not modelled; `retrieve` fails in the model only when the embedding fails.
- Upload.ProcessPdf: `encode_doc` followed by `insert_document` is one abstract per-batch step returning an inserted-chunk count or an error. Logging, prints and tracebacks are left out.
- Upload.UploadDocuments: the outer `except` returning HTTP 500 is left out. With the per-file errors already caught, it only guards foreign code and logging.
- DocumentService.InsertDocumentWithChunks: the chunk rows' own `id` and `created_at` are left out, as is the document's `created_at`. `ensure_tables_exist` appears only as a possible failure before the session is used.
- DocumentService.Session: the database is a list of stored records. Queries, constraints and ORM identity are not modelled. A constraint violation is an injected `IntegrityError` fault.
- Exceptions are modelled by their message, as `str(e)` renders it. A fault injected into a foreign step stands for any exception that step can raise.
- Generation.SortByIdOrders: ids are integers. Mixed-type ids, for which Python's `sorted` raises `TypeError`, are not modelled.
- Generation.InfoOf: a row whose `metadata` key is present but `None` is not modelled. In the source it raises `AttributeError`.
- The default arguments of `chunk_content`, `preprocess_content` and `encode_doc` appear only as constants. The callers pass every argument explicitly.
