# econstor scraper — a Dafny model of the search client's core

The client searches the EconBiz service for econstor papers. It reads the
hits into paper records and can save the whole response as a JSON file. It
lists the saved responses and prints short summaries of papers. For every
hit whose first PDF locator is a non-empty string, it downloads that
locator into an output directory.

This project models those pieces as pure functions over immutable data:

- `Models` (models.dfy): the paper, hit-list and response records, plus
  the extraction of `(id, url)` download targets.
- `Download` (download.dfy): one download (`download_pdf`) as a boolean
  plus at most one file write. The batch (`download_pdfs_batch`) creates
  the output directory, runs each task and folds the settled results into
  the `successful` and `failed` id lists.
- `Listing` (listing.dfy): `list_saved_responses`, a glob filter plus
  Python's string ordering.
- `Format` (format.dfy): `format_paper_info`.
- `Api` (api.dfy): the request parameters of `search`, and the mapping of
  transport, status and payload outcomes to a record or to nothing. It also
  covers the query sanitisation and file name of `_save_response`.
- `Files` (files.dfy): the file system, as a set of directories and a map
  from paths to bytes, with pathlib's `/` join and `parent`.
- `Json`, `Http` and `Text` (json.dfy, http.dfy, text.dfy): supporting modules.

The network, the clock and the serialiser are parameters. A fetch is given
as the outcome it produced: a timeout, a connection error, a response with
a status and a body, or another fault. A search's HTTP exchange is given as
a `Reply`. Timestamps are strings, and the record serialiser is a function
argument.

## Model

| member | source | states |
|---|---|---|
| Models.PdfUrl | models.py:18-22 | The first locator is returned exactly when the locator list is present and non-empty. |
| Models.PdfUrls | models.py:45-53 | The pairs are at most as many as the papers, and every url is non-empty. A pair is listed exactly when some paper with a non-empty first locator contributes it. |
| Models.GetPdfUrls | models.py:45-53 | A response's download targets are at most as many as its papers. A pair is a target exactly when one of the response's papers has a non-empty first locator and contributes that pair. |
| Models.PdfUrlsAppend | models.py:48-53 | Extraction distributes over concatenation, so the pairs keep hit order. |
| Models.PdfUrlsKeepsAll | models.py:48-53 | When every paper has a PDF, extraction yields one pair per paper, position by position. |
| Models.EmptyFirstUrlSkipped | models.py:49-52 | An empty first locator is reported by `get_pdf_url` but is never a download target, because the empty string is falsy. |
| Download.DownloadPdf | utils.py:31-54 | Returns true exactly when the fetch gave a 2xx body and the file could be opened. The file then holds exactly that body. On false nothing changes, and no other path is touched. |
| Download.DownloadsCommute | utils.py:74-80 | Downloads to different files give the same results and file system in either order. |
| Download.Destination | utils.py:76 | The destination path ends with the id followed by `.pdf`. |
| Download.DestinationInjective | utils.py:75-77 | Different paper ids get different destination files. |
| Download.FlatDestinationWritable | utils.py:57-77 | An id without `/` is saved directly in the output directory just created, so its file can be opened. |
| Download.Fold | utils.py:82-91 | Every id goes to exactly one of the two lists, so their lengths add up to the number of ids. |
| Download.FoldPermutes | utils.py:82-91 | The two lists together are the input ids as a multiset. |
| Download.FoldMembers | utils.py:82-91 | An id is successful exactly when some position holding it counts under the rule, and failed exactly when some position holding it does not. |
| Download.Aggregate | utils.py:82-91 | An id is successful exactly when its task returned true. It is failed exactly when its task returned false, raised or was cancelled. Both lists together are the input ids as a multiset. |
| Download.AggregateAsWritten | utils.py:82-91 | As the source tests it, an id is successful exactly when its task returned true or was cancelled, and failed exactly when it returned false or raised. Both lists together are the input ids as a multiset. |
| Download.FoldAppend | utils.py:82-91 | Aggregation keeps input order: two batches folded back to back concatenate their lists. |
| Download.AsWrittenAgreesWithoutCancellation | utils.py:83-91 | Without cancellations the source's test and the intended one give the same lists. |
| Download.RunAll | utils.py:74-80 | One boolean per target: the tasks run one after another in input order on the shared file system. |
| Download.RunAllOutcomes | utils.py:74-80 | Each task succeeds exactly when its fetch gave a 2xx body and its destination's directory exists (or is created per task). Running the tasks only adds directories. |
| Download.RunAllFrame | utils.py:74-80 | A path that no successful task wrote keeps its contents. |
| Download.RunAllWrites | utils.py:74-80 | With distinct ids, a successful task's destination holds exactly its fetched body when the batch is over. |
| Download.RunBatch | utils.py:56-91 | The output directory and all its parents exist afterwards, and no directory is lost. The two lists together are the input ids as a multiset. A path that is no task's destination keeps its contents. |
| Download.RunBatchMembership | utils.py:80-91 | With distinct ids, an id is successful exactly when its own task returned true, and failed otherwise. |
| Download.DownloadBatch | utils.py:56-97 | The output directory and all its parents exist afterwards, every id is reported exactly once, and every path that is no task's destination keeps its contents. With distinct ids, an id is successful exactly when its fetch gave a 2xx body and its destination's directory exists. A successful id's file holds that body. A failed id's destination keeps its previous content. |
| Download.DownloadBatchCorrected | utils.py:56-97 | The output directory and its parents exist afterwards, and paths that are no task's destination keep their contents. With each destination's own directory created, an id is successful exactly when its fetch gave a 2xx body, and its file holds that body. |
| Download.FlatIdSucceedsIffFetched | utils.py:75-91 | In the batch as written, an id without `/` is successful exactly when its fetch gave a 2xx body. |
| Download.NestedIdAlwaysFails | utils.py:57-77 | An id holding `/` is reported failed whatever its fetch gave, for any output directory including the default `.`, unless its sub-directory already existed or is the working directory or the root itself. |
| Download.EconstorIdNotSaved | utils.py:56-77 | With the default output directory `.`, the id `10419/12345` with a 200 answer is failed as written and saved once corrected. |
| Download.CancelledCountedSuccessful | utils.py:80-88 | A cancelled task is counted successful as written, and failed by the intended rule. |
| Download.GetAsCalled | utils.py:35 | The call as written never yields a 2xx body. |
| Download.StreamArgumentDefeatsDownload | utils.py:33-54 | As called, every download returns false and writes nothing. |
| Listing.LexLeTransitive | utils.py:28 | Python's string order is transitive. |
| Listing.LexLeAntisymmetric | utils.py:28 | Python's string order is antisymmetric. |
| Listing.LexLeTotal | utils.py:28 | Python's string order is total. |
| Listing.Sort | utils.py:28 | The result is ascending and a permutation of the input. |
| Listing.SortedUnique | utils.py:28 | Two ascending permutations of the same names are equal, so the sorted order is determined. |
| Listing.MatchingNames | utils.py:27 | Each name matching `response_*.json` is kept as often as it occurs; no other name is kept. |
| Listing.ListSavedResponses | utils.py:22-28 | A missing directory gives an empty list. Otherwise the result is ascending and holds exactly the matching names, with their multiplicities. |
| Listing.ListingIgnoresEnumerationOrder | utils.py:27-28 | The listing does not depend on the order the directory enumerates its entries. |
| Listing.ListsExactlyMatching | utils.py:22-28 | A name is listed exactly when the directory holds it and it matches the glob. |
| Format.FormatLines | utils.py:102-127 | A summary has two to six lines. The first is the id line, and the PDF line that fits the paper is among them. |
| Format.FormatLinesLabels | utils.py:102-127 | The id line comes first. A title, authors, date or subjects line appears exactly once when its field is non-empty, and never otherwise. There is exactly one id line and one PDF line, and no other lines. |
| Format.FormatLinesPdf | utils.py:116-121 | The PDF line says "Available" exactly when the first locator is present and non-empty, and "Not Available" otherwise. |
| Format.FormatPaperInfo | utils.py:100-129 | The summary starts with the id line and contains the PDF line that fits the paper. |
| Format.AuthorsShort | utils.py:107-111 | Up to three authors are listed in full, with nothing after them. |
| Format.AuthorsLong | utils.py:107-111 | Beyond three authors, the first three are followed by " (and k more)", where k reads back as the number left out. |
| Format.AuthorsNamed | utils.py:107-111 | Each of the first three authors appears in the authors text. |
| Format.SubjectsTruncation | utils.py:123-127 | Up to three subjects are listed in full. Beyond three, the first three are followed by "...". Each of the first three appears in the text. |
| Text.DecimalRoundTrip | utils.py:110 | The decimal rendering of a count reads back as the same count. |
| Api.DefaultArgs | api.py:12 | A default search sends the query, highlight true, sort "date desc", from 1, size 10 and facets "language person subject type_genre isPartOf". |
| Api.Params | api.py:16-24 | The parameter map has exactly the seven keys and always filters on the econstor source. The arguments read back from it unchanged. |
| Api.ReadParamsExact | api.py:16-24 | Every map that reads back as arguments is the parameter map of those arguments, so `Params` is a bijection onto such maps. |
| Api.StringItems | models.py:10-15 | A list field is accepted exactly when every item is a string, and it keeps all items in order. |
| Api.OptionalList | models.py:10-15 | An optional list field is accepted exactly when it is null (or missing) or an array of strings. It then stands for no list or for the array's strings in order. |
| Api.ParsePaper | models.py:8-15 | A hit is accepted exactly when it is an object with a string `id` whose six list fields are each missing, null or an array of strings. The record then stands for the hit: same id, a missing or null field is no list, an array is its strings in order. |
| Api.ParsePaperExact | models.py:8-15 | A hit parses to a given paper exactly when it stands for that paper, so the record is determined by the hit. |
| Api.ParsePaperIgnoresExtraKeys | models.py:8-15 | Adding or changing a key the record does not declare leaves the parse unchanged. |
| Api.HitItems | api.py:44 | Iterating the hits value gives an array's items. An empty object or empty string gives no hits. Any other value fails. |
| Api.Facets | api.py:45 | A missing or null `facets` gives no facets, an object is kept as it is, and any other value fails. |
| Api.ParsePapers | api.py:43-44 | The hit list is accepted exactly when every hit is, with one record per hit in payload order. |
| Api.ParseResponse | api.py:41-48 | A record is built exactly when the payload has an object `hits` holding an integer `total` and a `hits` entry, that entry iterates to hits that all parse, and the facets are acceptable. The record carries the search's query, parameters and creation time, the payload's total and facets, and the parsed hits in payload order. |
| Api.ResponsePapers | models.py:41-42 | The papers of a record read from a payload are one per hit, in payload order, each standing for its hit. |
| Api.MissingPdfsPayload | api.py:41-55 | Three hits that leave out most fields, the second with a null locator, give three papers and the download targets of the first and third, in that order. |
| Api.ParsePaperInverse | models.py:8-15 | A paper rendered as a payload hit reads back as the same record. |
| Api.ParsePapersInverse | api.py:43-44 | A hit list rendered and read back is the same list, in order. |
| Api.ParseResponseInverse | api.py:41-48 | A response rendered as a payload reads back as the same record. |
| Api.SanitizeQuery | api.py:74 | The safe query has the same length and no space or `/`. Exactly the spaces and slashes became `_`. |
| Api.SanitizeIdempotent | api.py:74 | Sanitising twice gives the same as sanitising once. |
| Api.SaveFileName | api.py:74-76 | The file name matches the listing's `response_*.json` glob. For a `%Y%m%d_%H%M%S` stamp it holds no `/`, whatever the query. |
| Api.SavePath | api.py:77 | For a `%Y%m%d_%H%M%S` stamp the file lies directly in `saved_responses`. |
| Api.SavedFileIsListed | api.py:72-77 | The saved file name matches the listing glob, and the file lies directly in `saved_responses`. Whenever the directory holds it, the listing includes it. |
| Api.SaveResponse | models.py:56-59 | After saving, the file reads back as the record's serialisation, its directory exists, and no other path changed. |
| Api.Search | api.py:12-68 | A transport failure or non-2xx status gives nothing, with no file written. A 2xx non-JSON body raises. A 2xx decoded payload gives exactly what parsing it gives: a record when the outline, every hit and the facets are acceptable, and nothing otherwise (in particular without an object `hits` holding an integer `total` and a `hits` entry). A returned record carries the query and parameters, and its papers are the payload's hits parsed in order. When saving, the file holds the record's serialisation. |
| Api.SearchReturnsPayload | api.py:41-68 | A 2xx reply carrying a response's payload returns exactly that response. |
| Api.SearchPdfUrls | api.py:55-56 | The download targets of a search's result are those of the payload's hits, in payload order. |
| Files.MakeDirs | utils.py:57 | The directory and all its parents exist afterwards. Directories only grow, and files are untouched. |
| Files.ReadAfterWrite | utils.py:39-40 | A written file reads back exactly, and every other path is unchanged. |
| Files.ParentOfJoin | utils.py:76 | A name without `/` joined onto a directory has that directory as its parent. |
| Files.ParentOfNestedJoin | utils.py:76 | A name holding `/` lands in a directory strictly deeper than the one it was joined onto. |

## Left out

- Concurrency: `asyncio.gather` is modelled as running the tasks one after another, in input order. `Download.DownloadsCommute` shows that downloads to different files commute, so this order stands for any interleaving.
- Cancellation is only a possible settled result. The model does not cover what cancels a task.
- Timing, timeouts and logging are out of scope, as is the request URL: the 30-second timeouts and the endpoint address do not appear in the model.
- Real HTTP, aiofiles and mkdir I/O are replaced by the `Fetch`/`Reply` inputs and the `FileSystem` value. OS errors during mkdir or a write are not modelled: permissions, a full disk, or a file standing where a directory is needed.
- Partial writes are not modelled: a write either happens whole or not at all.
- Pathlib normalisation is not modelled for ids that are absolute or contain `..` or `.` segments, nor for repeated `/` (pathlib reads `a//b` as `a/b`), nor for an output directory of `/`, which pathlib joins without a doubled separator. Paths are compared as strings.
- Download.DestinationInjective: holds for paths as strings. Under pathlib's normalisation two different ids such as `a//b` and `a/b` name the same file.
- Download.DownloadBatch: with duplicate ids, only the partition facts are stated (lengths and multisets). Per-id facts are stated for distinct ids, because a duplicated id's later task overwrites the earlier file.
- Pydantic's lax coercions are not modelled: numeric strings or whole floats become ints, and bytes become strings. JSON numbers are integers only, so `total` must be an integer and list items must be strings.
- Api.Search: exceptions from `client.get` other than httpx's request and status errors are not modelled (the request URL is a constant).
- Api.Search: an error while saving is caught and gives `None` in the source. The model's save always succeeds.
- Pydantic's `model_dump_json` and `model_validate_json`, `EconBizResponse.load` and `load_saved_responses` are left out: they are serialiser calls. The serialiser is a parameter of `Api.SaveResponse`.
- `datetime.now` is left out: the creation time and the file-name stamp are string parameters. `Api.IsStamp` describes the `%Y%m%d_%H%M%S` shape.
- Listing.ListSavedResponses returns the matching names, not `Path` objects. All of them lie in one directory, so for POSIX paths sorting the paths orders them the same as sorting the names.
- POSIX paths only: Windows paths compare case-folded parts and glob matches case-insensitively there; the model follows POSIX case-sensitive matching and ordering.
- The printed output of `search`, and `main.py`, are left out.
- A non-JSON 2xx body raises out of `search`, because `response.json()` sits outside the `try`. The model follows the code and returns `Api.Outcome.Raised` for it.
- Download.DownloadBatch takes each fetch outcome as given, so it assumes the fetch works. As written, the `stream=True` argument makes every fetch fail; this is the third finding below.

## Findings

| source | as written | input that shows it | evidently intended | confidence | as-written member | corrected member |
|---|---|---|---|---|---|---|
| utils.py:83-88 | A gathered `CancelledError` is not an `Exception`, and it is truthy, so it reaches the `elif success` branch. | one task cancelled: `["paper1"]` settled as cancelled is reported successful | a cancelled task is failed | medium, not executed | Download.AggregateAsWritten, Download.CancelledCountedSuccessful | Download.Aggregate |
| utils.py:75-77 | Only `output_dir` is created. A paper id holding `/` names a file in a sub-directory that does not exist, so opening it fails. | id `10419/12345`, the default output directory `.`, a 200 answer, an empty file system | the PDF is saved (e.g. by creating the file's parent or by escaping the id) | high, not executed | Download.DownloadBatch, Download.NestedIdAlwaysFails, Download.EconstorIdNotSaved | Download.DownloadBatchCorrected |
| utils.py:35 | `client.get(url, stream=True)`: httpx's `AsyncClient.get` takes no `stream` argument, so the call raises `TypeError`, which is caught as a generic failure. | any url with any server answer | fetch the body and save it on a 2xx answer | high, not executed | Download.GetAsCalled, Download.StreamArgumentDefeatsDownload | Download.DownloadPdf |
