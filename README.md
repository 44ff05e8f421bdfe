# Financial-Forecasting-Agent-Screener, modelled in Dafny

The repository is a Python pipeline that forecasts a listed company's business
from its screener.in page. It scrapes the page for PDF links and the quarterly
results table, downloads the PDFs and classifies them by keyword, sweeps old
files by their PDF metadata dates, chunks and indexes the transcript texts, and
lets a language-model agent call three tools (financial metrics, qualitative
analysis over the index, the live NSE price). When the agent fails, the
pipeline falls back to calling the tools directly and synthesising a forecast.

This project models the deterministic logic around the language model, one
Dafny module per source file, with a few shared modules:

| module | source file | form |
|---|---|---|
| `TextChunker` | app/utils/text_chunker.py | `method` with the source's `while` loop, specified by `ChunksFrom` |
| `PdfDownloader` | app/utils/pdf_downloader.py | functions for the name and classification rules; methods over a `Folder` class for renaming and downloads |
| `Scraper` | app/utils/scraper.py | functions for value parsing and the symbol; loop methods for link and row collection |
| `HtmlScraper` | app/utils/html_scraper.py | loop method plus `Dedupe` |
| `ResearchRaw`, `ResearchRawCode` | research/raw.py, research/raw_code.py | the two research copies, each with its own rules |
| `FinancialExtractor` | app/tools/financial_extractor.py | nested loops filling metric dictionaries |
| `QualitativeAnalysis` | app/tools/qualitative_analysis.py | a class whose lazily set `index` field the methods update |
| `MarketData` | app/tools/market_data.py | status mapping function and the `+=` text builder |
| `AgentPipeline` | app/services/agent_pipeline.py | trend keywords, brace slicing, fallback forecast |
| `QualitativeTool` | app/services/qualitative_tool.py | filter, loops over texts and queries, the index-None rule |
| `Pipeline` | app/services/pipeline.py | pure input parsing and result shape |
| `KnowledgePool` | app/services/knowledge_pool.py | a class with a `map` field |
| `Sweep`, `PdfDates` | shared by both research copies | the retention sweep over a folder and the PDF date forms |
| `Wrappers`, `PyStr`, `PyDict`, `Documents`, `JsonValue` | — | Option/Outcome/Run results, Python string and dict semantics, PDF files and the folder, JSON values |

The world outside Python is made explicit. The download folder is a `Folder`
object holding a `map` from file name to a PDF record (its /CreationDate and
/ModDate metadata and its page texts). HTTP responses, PDF readers, library
text splitters, `json.loads`, `float()`, `urljoin`, LLM answers and the NSE
quote are function-typed parameters or outcome datatypes. The clock is a `now`
parameter in whole seconds. A FAISS index is the sequence of documents it holds.
A Python exception is the `Raised` case of `Outcome`. A loop that never exits is
the `Diverges` case of `Run`.

## Model

| member | source | states |
|---|---|---|
| KnowledgePool.Pool.constructor | app/services/knowledge_pool.py:4-5 | a new pool is empty |
| KnowledgePool.Pool.Add | app/services/knowledge_pool.py:7-8 | binds the key to the value, overwriting an earlier value, and leaves every other key unchanged |
| KnowledgePool.Pool.Get | app/services/knowledge_pool.py:10-11 | returns the bound value, or the default for an absent key, and does not change the pool |
| KnowledgePool.GetAfterAdd | app/services/knowledge_pool.py:7-11 | a get after add(k, v) returns v; a get of another key returns what it returned before |
| HtmlScraper.Dedupe | app/utils/html_scraper.py:17 | the result has no duplicates and holds exactly the elements of the input |
| HtmlScraper.DedupeKeepsFirstOccurrenceOrder | app/utils/html_scraper.py:16-17 | the deduplicated list keeps the order of first occurrence |
| HtmlScraper.FindDocumentLinks | app/utils/html_scraper.py:6-17 | a failed request propagates; otherwise the result is the deduplicated joins of the PDF hrefs of the `#documents` section, or of the whole page when there is none |
| HtmlScraper.PdfLinksExactly | app/utils/html_scraper.py:11-14 | a link is collected iff it is `urljoin(base, href)` for a non-empty href ending in ".pdf", case-insensitively |
| HtmlScraper.DocumentLinksCharacterised | app/utils/html_scraper.py:10-17 | the returned list has no duplicates, and its elements are exactly the joins of the kept hrefs |
| TextChunker.ResolveSettings | app/utils/text_chunker.py:5-8 | a None chunk_size becomes 1000 and a None overlap becomes 200; given values are kept |
| TextChunker.NextStart | app/utils/text_chunker.py:14-18 | the next start is never negative; it advances when overlap <= 0 and overlap < chunk_size; it stays below L when overlap > 0; it does not advance when chunk_size <= overlap |
| TextChunker.ChunkText | app/utils/text_chunker.py:10-19 | on every call that returns (empty text, or overlap <= 0 and overlap < chunk_size) the loop returns exactly `Chunks`, whose chunks are Python slices whose end may be negative; empty text gives [] |
| TextChunker.AppendWindow | app/utils/text_chunker.py:14-18 | one pass appends the window at the current start, which is the next chunk of the result, and moves to the next start |
| TextChunker.ChunksAreWindows | app/utils/text_chunker.py:13-18 | on every call that returns, chunk i is the Python slice text[w_i : min(w_i + chunk_size, L)], each window start lies in [0, L), and before a window reaches the end the next start is w + chunk_size - overlap |
| TextChunker.WindowSlices | app/utils/text_chunker.py:14-15 | the chunks are the slices at the window starts, one per start |
| TextChunker.WindowSteps | app/utils/text_chunker.py:16-18 | each window start follows from the previous one by one loop step |
| TextChunker.ChunkLengthBound | app/utils/text_chunker.py:14-15 | no chunk is longer than the text, nor than chunk_size when it is positive |
| TextChunker.NoOverlapTiles | app/utils/text_chunker.py:13-16 | with overlap 0 the chunks from a start concatenate to the rest of the text |
| TextChunker.NoOverlapFullChunks | app/utils/text_chunker.py:14-16 | with overlap 0 every chunk but the last has exactly chunk_size characters |
| TextChunker.NoOverlapRoundTrip | app/utils/text_chunker.py:13-16 | with overlap 0 the chunks concatenate back to the text, and all but the last are full |
| TextChunker.NeverExits | app/utils/text_chunker.py:13-18 | on non-empty text with overlap > 0, or chunk_size <= overlap, the start after any number of passes is still below L |
| TextChunker.ExitsWithin | app/utils/text_chunker.py:13-18 | with overlap <= 0 and overlap < chunk_size the start after n passes is at least min(n, L), so the loop leaves within L passes |
| TextChunker.ReturnsExactly | app/utils/text_chunker.py:13-18 | on non-empty text the guard fails within L passes iff overlap <= 0 and overlap < chunk_size, and otherwise holds after every pass |
| TextChunker.ZeroSizeExample | app/utils/text_chunker.py:13-19 | `chunk_text("ab", 0, -1)` returns two empty chunks |
| TextChunker.FinalWindowIsFixpoint | app/utils/text_chunker.py:14-18 | with 0 < overlap <= chunk_size, once a window ends at L the next start is max(L - overlap, 0), whose window ends at L again and restarts there |
| TextChunker.DefaultCallNeverReturns | app/utils/text_chunker.py:5-18 | with both arguments None the loop guard holds after every pass on non-empty text |
| TextChunker.ChunkTextStopping | app/utils/text_chunker.py:13-19 | the loop with a stop after the window that reaches L returns for every chunk_size > overlap >= 0, and its chunks stitch back into the text |
| TextChunker.StoppingChunkSizes | app/utils/text_chunker.py:14-15 | every chunk of the stopping loop has between 1 and chunk_size characters |
| TextChunker.StoppingRoundTrip | app/utils/text_chunker.py:13-19 | the first stopping chunk followed by every later one without its first `overlap` characters is the text |
| TextChunker.DefaultsStop | app/utils/text_chunker.py:5-8 | the defaults 1000/200 satisfy the stopping loop's precondition, and its chunks then have 1 to 1000 characters |
| Sweep.Without | research/raw.py:260-287 | the folder after a sweep holds exactly the files the rule does not call expired, with their contents |
| Sweep.SweptOverMeans | research/raw.py:260-287 | walking a list of names removes exactly the expired files among those names |
| Sweep.SweptOverAll | research/raw_code.py:246-263 | a walk over a listing that covers the folder removes exactly what `Without` removes |
| Sweep.SweepNext | research/raw_code.py:261-263 | one loop pass removes the file exactly when the rule calls it expired, and the folder size drops by one exactly then |
| Sweep.SweepListing | research/raw_code.py:243-266 | the loop over `os.listdir` leaves `Without(old folder)` and counts exactly the files removed |
| Sweep.WithoutIdempotent | research/raw_code.py:243-266 | a second sweep with the same rule removes nothing more |
| PdfDates.ToSecondsDecomposes | research/raw.py:282 | a datetime's seconds count divides into its day number and its time of day, so whole-day age is floor division by 86400 |
| PdfDates.AgeExceeds | research/raw.py:282-284 | an age of more than n whole days means at least (n + 1) · 86400 seconds separate the date from now |
| PdfDates.CompactRoundTrip | research/raw.py:244 | every valid datetime is read back from its fourteen-digit %Y%m%d%H%M%S form |
| PdfDates.CompactCanonical | research/raw.py:244 | a fourteen-character string that parses is the canonical form of what it parses to |
| PdfDates.MonthNumber | research/raw.py:251 | %b: the month number is in 1..12 exactly for the twelve abbreviations, and names that abbreviation |
| PdfDates.To24 | research/raw.py:251 | %I with %p gives an hour in 0..23 that is 12 or later exactly for PM |
| PdfDates.ClockRoundTrip | research/raw.py:251 | the 12-hour and 24-hour clocks correspond one to one |
| PdfDates.ParseLocaleOf | research/raw.py:250-252 | a string in the "%a %d %b %Y %I:%M:%S %p %z" layout whose fields name a valid datetime reads as that datetime, the offset dropped |
| PdfDates.LocaleExample | research/raw.py:249-252 | "Fri 12 Oct 2018 05:53:59 PM +05:30" reads as 2018-10-12 17:53:59 |
| ResearchRaw.AnchorFilename | research/raw.py:99-102 | the derived filename always ends in ".pdf" after a non-empty stem |
| ResearchRaw.AnchorFilenameNoBlanks | research/raw.py:99 | the derived filename holds no space and no newline |
| ResearchRaw.ScrapeScreenerPdfs | research/raw.py:96-105 | the loop collects exactly `ScrapedEntries` of the anchors, in page order |
| ResearchRaw.ScrapedEntriesExactly | research/raw.py:96-102 | a (href, filename) pair is collected iff some anchor's href ends in ".pdf", case-sensitively, and yields that filename |
| ResearchRaw.SubForbidden | research/raw.py:205 | each of `/ : * ? " < > ; ,` and the vertical bar becomes '_' and every other character is kept in place |
| ResearchRaw.CleanUncappedShape | research/raw.py:205-207 | before the cap the name has no forbidden character, no "__", and no leading or trailing space or dot |
| ResearchRaw.CleanFilenameSafe | research/raw.py:204-210 | the cleaned name has at most 180 characters, no forbidden character and no "__" |
| ResearchRaw.CleanFilenameIdempotent | research/raw.py:204-210 | cleaning a name that came out at most 180 characters long changes nothing |
| ResearchRaw.LongNameLosesPdfSuffix | research/raw.py:208-209 | a stem of 180 or more letters plus ".pdf" is cut to the stem's first 180 characters and no longer ends in ".pdf" |
| ResearchRaw.LetterNameIsClean | research/raw.py:204-207 | a lower-case letter stem plus ".pdf" passes the substitutions and the strip unchanged |
| ResearchRaw.ClassifyReadsOnlyFirst800 | research/raw.py:110 | two PDFs whose first pages agree on their first 800 characters classify alike |
| ResearchRaw.ClassifyPresentation | research/raw.py:114-117 | a PDF is a presentation iff its first 800 lower-cased characters say "presentation" and neither "transcript" nor "earnings call" |
| ResearchRaw.NumberedInjective | research/raw.py:135-141 | distinct counters give distinct candidate names |
| ResearchRaw.NumberedNotOriginal | research/raw.py:135 | a candidate name `{stem}_{k}{ext}` is never the saved name itself |
| ResearchRaw.NumberedBoundedByFolder | research/raw.py:138-141 | the counter loop stops: n taken candidate names need n files |
| ResearchRaw.MaybeRename | research/raw.py:121-149 | an unclassified file is left alone and its name returned; a classified one moves, contents intact, to `{stem}_{k}{ext}` with the smallest k >= 1 not taken, and that name is returned |
| ResearchRaw.FreeNumberFrom | research/raw.py:134-141 | when `{stem}_1{ext}` … `{stem}_{k-1}{ext}` are all taken, the counting loop stops at the first free number k or later |
| ResearchRaw.RenameTarget | research/raw.py:121-149 | an unclassified file keeps its name; a classified one gets `{stem}_{k}{ext}` for the first free k >= 1, a name different from the original and not in the folder |
| ResearchRaw.SaveAs | research/raw.py:156-159 | an empty name raises and leaves the folder alone; otherwise the body is written under the name, overwriting |
| ResearchRaw.DownloadBseAnnPdf | research/raw.py:151-162 | a failed request raises; otherwise the body is saved under the given name |
| ResearchRaw.DownloadDirectPdf | research/raw.py:192-201 | a failed request raises; otherwise the body is saved under the given name |
| ResearchRaw.DownloadBseIframePdf | research/raw.py:164-189 | a page without an iframe returns None and saves nothing; otherwise the iframe's PDF, its src prefixed with "https://www.bseindia.com" unless it starts with "http", is saved |
| ResearchRaw.DownloadPdf | research/raw.py:212-225 | the name is cleaned, the URL routed to AnnPdfOpen.aspx, then xml-data/corpfiling, then direct download, and every saved file goes through the rename step |
| ResearchRaw.ParsePdfDate | research/raw.py:240-254 | a parsed date is always a valid calendar datetime |
| ResearchRaw.ParsePdfDateExample | research/raw.py:241-245 | "D:20181012055359+05'30'" reads as 2018-10-12 05:53:59 |
| ResearchRaw.Swept | research/raw.py:260-290 | the folder after the sweep holds exactly the files that are not expired, with their contents |
| ResearchRaw.DeleteOldPdfs | research/raw.py:235-296 | the loop over the listing leaves the swept folder and reports "Deleted k old PDF(s)." for the k files removed |
| ResearchRaw.ExpiredMeans | research/raw.py:260-287 | a file goes iff its name ends in ".pdf" in any case, it opens, its /CreationDate (else /ModDate) parses, and its whole-day age exceeds 365 |
| ResearchRaw.SweptIdempotent | research/raw.py:235-296 | a second sweep at the same moment removes nothing more |
| ResearchRaw.SweptMonotone | research/raw.py:282-287 | a later sweep removes at least what an earlier one removed |
| ResearchRaw.PdfNames | research/raw.py:320-322 | the kept names are exactly the listing's names ending in ".pdf", case-insensitively |
| ResearchRaw.CreateChunks | research/raw.py:315-339 | no PDF or a loader failure raises (UnboundLocalError at the return); otherwise the result is the splits of the loaded documents |
| ResearchRaw.CreatePdfVectorStores | research/raw.py:342-353 | the index is always built fresh from the chunks; FAISS raises on an empty list |
| ResearchRaw.CreateUrlVectorStore | research/raw.py:298-305 | a loader failure raises; otherwise the result holds the URL's chunks only |
| ResearchRaw.UrlStoreDiscardsIndex | research/raw.py:298-305 | the index passed in makes no difference to the result |
| ResearchRaw.CurrentMarketPrice | research/raw.py:355-366 | no "/company/<symbol>/" match raises ValueError; otherwise the quote's "current_value" when the answer is a dict, else None |
| ResearchRawCode.DownloadPdfGeneric | research/raw_code.py:182-190 | a file is saved, under the cleaned name, exactly when the request succeeds and the cleaned name is not empty; any failure gives None and leaves the folder alone |
| ResearchRawCode.DateString | research/raw_code.py:252-253 | the date string is a non-empty /CreationDate, else a non-empty /ModDate |
| ResearchRawCode.Swept | research/raw_code.py:246-263 | the folder after the sweep holds exactly the files that are not expired, with their contents |
| ResearchRawCode.DeleteOldPdfs | research/raw_code.py:243-266 | the loop leaves the swept folder and returns the number of files removed |
| ResearchRawCode.PrefixIgnored | research/raw_code.py:258 | only characters 2..15 of the date string matter; the "D:" prefix is never checked |
| ResearchRawCode.EmptyCreationUsesModDate | research/raw_code.py:253 | an empty /CreationDate falls through to /ModDate |
| ResearchRawCode.ExpiredMeans | research/raw_code.py:247-263 | a file goes iff its name ends in ".pdf" in any case, it opens, its date string's characters 2..15 parse, and its whole-day age exceeds max_age_days |
| ResearchRawCode.SweptMonotoneInAge | research/raw_code.py:261 | a larger maximum age keeps at least the files a smaller one keeps |
| ResearchRawCode.PrefixCheckDiffers | research/raw_code.py:257-258 | a date string "X:" plus an old compact date is deleted by this copy and kept by research/raw.py |
| ResearchRawCode.DownloadPdfs | research/raw_code.py:226-238 | returns "Finished downloading PDFs." and leaves the folder `AfterLinks` of the scraped links: each link downloaded, renamed when saved and classified, then the folder swept |
| ResearchRawCode.DownloadLink | research/raw_code.py:228-235 | one pass of the loop leaves the folder `AfterLink`: the cleaned name saved when the request succeeds, renamed when classified, then the sweep |
| ResearchRawCode.AfterLinksSwept | research/raw_code.py:226-238 | with no scraped link the folder is unchanged; after at least one link no expired file is left |
| ResearchRawCode.AfterLinkKeeps | research/raw_code.py:228-235 | a pass keeps, with its contents, every file that is not expired and is not the link's cleaned name |
| ResearchRawCode.AfterLinksKeeps | research/raw_code.py:226-238 | the loop keeps, with its contents, every file that is not expired and is no link's cleaned name |
| ResearchRawCode.AfterLinkFrom | research/raw_code.py:228-235 | a file after one pass was there before, or is the link's cleaned name or a numbered form of it |
| ResearchRawCode.AfterLinksFromLinks | research/raw_code.py:226-238 | every file after the loop was there before, or is the cleaned name of one of the links or a numbered form of it |
| ResearchRawCode.LastLinkStays | research/raw_code.py:228-235 | the last link's saved and renamed file is in the folder afterwards exactly when the sweep does not find it expired |
| ResearchRawCode.Gathered | research/raw_code.py:304-307 | the index is None iff there are no splits, and otherwise holds exactly the splits |
| ResearchRawCode.MergeGathers | research/raw_code.py:304-307 | creating on the first batch and appending later batches gathers their concatenation |
| ResearchRawCode.NonPdfAddsNothing | research/raw_code.py:283-284 | a name not ending in ".pdf" adds nothing to the index |
| ResearchRawCode.Store.constructor | research/raw_code.py:104 | the module starts with no index and nothing saved |
| ResearchRawCode.Store.CreateVectorStore | research/raw_code.py:271-333 | the index is reset, then holds the splits of every readable *.pdf in listing order followed by the URL's, or None when there are none; only a non-empty index is saved |
| ResearchRawCode.Store.LoadExistingVectorStore | research/raw_code.py:135-141 | the index becomes the saved one, or None when nothing was saved |
| ResearchRawCode.Store.UserQueryAnswer | research/raw_code.py:341-364 | no index raises RuntimeError before any retrieval; otherwise the answer and the k documents retrieved |
| Documents.FromDocuments | research/raw.py:347 | FAISS builds an index exactly for a non-empty document list |
| Documents.Folder.constructor | research/raw.py:260 | a folder holds the files it is given |
| Documents.Folder.Write | research/raw.py:158-159 | writing creates or overwrites the file and changes nothing else |
| Documents.Folder.Rename | research/raw.py:144 | a rename fails, changing nothing, iff the source is missing; otherwise the source's contents move to the target name |
| Documents.Folder.ListDir | research/raw.py:260 | the listing names every file exactly once |
| Documents.Folder.Remove | research/raw.py:286 | removing drops exactly that file |
| PdfDownloader.SubForbidden | app/utils/pdf_downloader.py:235 | each of `< > : " / \ ? *` and the vertical bar becomes '_' and every other character is kept in place |
| PdfDownloader.CollapseUnderscores | app/utils/pdf_downloader.py:238 | every run of underscores becomes one: the result has no "__", is no longer than the input and starts like it |
| PdfDownloader.CollapseDrawsFrom | app/utils/pdf_downloader.py:238 | the collapse only drops characters, so it adds no new one |
| PdfDownloader.CollapseKeeps | app/utils/pdf_downloader.py:238 | a string without "__" is left alone by the collapse |
| PdfDownloader.SplitExt | app/utils/pdf_downloader.py:245 | `os.path.splitext`: stem and extension concatenate to the name, and a non-empty extension is one dot followed by no other dot, after a non-empty stem |
| PdfDownloader.CleanUncappedShape | app/utils/pdf_downloader.py:235-241 | before the cap the name has no forbidden character, no "__", and no leading or trailing space or dot |
| PdfDownloader.CapSafe | app/utils/pdf_downloader.py:244-246 | the cap keeps the name free of forbidden characters and of "__" |
| PdfDownloader.CleanFilenameSafe | app/utils/pdf_downloader.py:224-248 | the cleaned name has no forbidden character and no "__" |
| PdfDownloader.CleanFilenameIdempotent | app/utils/pdf_downloader.py:241-248 | cleaning a name that came out at most 200 characters long changes nothing |
| PdfDownloader.CleanFilenameCap | app/utils/pdf_downloader.py:244-246 | past 200 characters the result is the first 195 characters of the stem followed by the whole extension |
| PdfDownloader.LongExtensionDefeatsCap | app/utils/pdf_downloader.py:244-246 | "a." followed by 200 or more letters comes back unchanged and longer than 200 characters |
| PdfDownloader.Classification | app/utils/pdf_downloader.py:170-179 | transcript keywords win over presentation keywords, which win over financial-report keywords; no keyword gives None; each answer in both directions |
| PdfDownloader.PresentationKeywordsReduce | app/utils/pdf_downloader.py:173-174 | a sample is a presentation iff it has no transcript keyword and says "presentation" or "investor deck" |
| PdfDownloader.SampleOfIsLowerPrefix | app/utils/pdf_downloader.py:165-167 | the sample is the lower-cased concatenation of the first pages read |
| PdfDownloader.OnlyFirstThreePages | app/utils/pdf_downloader.py:166 | pages after the third never influence the classification |
| PdfDownloader.ClassifyPdfType | app/utils/pdf_downloader.py:151-183 | the loop over at most three pages returns the classification of their lower-cased text, and None when the file cannot be read |
| PdfDownloader.CandidateInjective | app/utils/pdf_downloader.py:203-211 | the names tried are pairwise distinct |
| PdfDownloader.CandidateNotOriginal | app/utils/pdf_downloader.py:208 | a candidate name is never the original name, so the `new_path != path_obj` test always holds |
| PdfDownloader.CandidatesBoundedByFolder | app/utils/pdf_downloader.py:208-211 | the collision loop stops: n taken candidates need n files |
| PdfDownloader.ClassifyAndRenamePdf | app/utils/pdf_downloader.py:186-221 | an unclassified path is returned unchanged; a classified file moves, contents intact, to the first free name among `{t}_{name}`, `{t}_1_{name}`, ..., so no file is overwritten |
| PdfDownloader.FreeFrom | app/utils/pdf_downloader.py:207-211 | when candidates 0 … k-1 are all taken, the collision loop stops at the first free candidate index k or later |
| PdfDownloader.RenameTarget | app/utils/pdf_downloader.py:196-221 | an unclassified file keeps its name; a classified one gets the candidate at the first free index, a name different from the original and not in the folder |
| PdfDownloader.RouteOf | app/utils/pdf_downloader.py:38-43 | AnnPdfOpen.aspx goes to the AnnPdf downloader, otherwise xml-data/corpfiling to the iframe one, otherwise direct |
| PdfDownloader.AbsoluteShape | app/utils/pdf_downloader.py:62-63 | a prefixed URL starts with "http", prefixing is idempotent, and an absolute URL is kept |
| PdfDownloader.CountStored | app/utils/pdf_downloader.py:33-48 | no more links are stored than are given |
| PdfDownloader.Save | app/utils/pdf_downloader.py:73-78 | a fetched body is written under the cleaned name and that name returned; no body or an empty name gives None and writes nothing |
| PdfDownloader.DownloadDirectPdf | app/utils/pdf_downloader.py:58-82 | the URL, prefixed with "https://www.screener.in" when relative, is fetched and saved; any failure gives None and writes nothing |
| PdfDownloader.DownloadBseAnnPdf | app/utils/pdf_downloader.py:85-104 | the URL is fetched as given and saved; any failure gives None and writes nothing |
| PdfDownloader.DownloadBseIframePdf | app/utils/pdf_downloader.py:107-148 | the iframe's src, prefixed with "https://www.bseindia.com" when relative, is fetched and saved; no iframe or no src gives None |
| PdfDownloader.DownloadByRoute | app/utils/pdf_downloader.py:37-43 | the strategy `RouteOf` picks returns the cleaned name exactly when its fetch succeeds, and the folder then maps that name to the fetched body, written over any file of that name; otherwise the folder is unchanged |
| PdfDownloader.DownloadOne | app/utils/pdf_downloader.py:37-48 | one link is reported exactly when stored; the report is `RenameTarget` of the folder holding the fetched body, and the folder is `AfterLink`: saved, then classified and renamed without overwriting |
| PdfDownloader.DownloadBatch | app/utils/pdf_downloader.py:33-52 | the loop leaves the folder `AfterLinks` of the links in order and returns `Reports`, one name per stored link in link order, each the (renamed) cleaned name of its link |
| PdfDownloader.DownloadPdfs | app/utils/pdf_downloader.py:20-55 | only the first max_pdfs links are visited, in order; the folder and the returned list are `AfterLinks` and `Reports` of those links, so at most min(len(links), max_pdfs) names, each naming one of those links |
| PdfDownloader.TargetIsReported | app/utils/pdf_downloader.py:45-48 | the name appended for a stored link is its cleaned name or a classified candidate of it |
| PdfDownloader.ReportsCount | app/utils/pdf_downloader.py:33-48 | the loop returns exactly one name per stored link |
| PdfDownloader.ReportsNamed | app/utils/pdf_downloader.py:33-48 | every returned name is the cleaned name of one of the links, or a classified candidate of it |
| PdfDownloader.AfterLinkKeeps | app/utils/pdf_downloader.py:37-48 | one link leaves every file other than its cleaned name in place, with its contents: the rename never overwrites |
| PdfDownloader.AfterLinksKeeps | app/utils/pdf_downloader.py:33-52 | the loop leaves in place, with its contents, every file that is no link's cleaned name |
| PdfDownloader.AfterLinksOnlyReported | app/utils/pdf_downloader.py:33-52 | every file after the loop was there before or is one of the returned names |
| PdfDownloader.LastReportHolds | app/utils/pdf_downloader.py:45-48 | the name returned for the last stored link holds that link's fetched body afterwards |
| Scraper.FirstNonEmpty | app/utils/scraper.py:48-51 | the selectors are tried in order: the result is non-empty iff some selector matched, and then it is the first non-empty match list |
| Scraper.SubUnsafe | app/utils/scraper.py:58 | every character other than an ASCII letter or digit, '-', '_' or '.' becomes '_', the rest are kept in place |
| Scraper.CleanLinkText | app/utils/scraper.py:57-58 | the cleaned link text holds only word characters, '-', '_' and '.' |
| Scraper.SuggestedFilename | app/utils/scraper.py:57-65 | the derived filename holds only ASCII letters, digits, '-', '_' and '.', and always ends in ".pdf"; empty or "_" cleaned text gives "Document.pdf", any other is kept, with ".pdf" appended unless already there |
| Scraper.SuggestedFilenameKeeps | app/utils/scraper.py:57-65 | a name that already has that form is kept as it is |
| Scraper.SuggestedFilenameIdempotent | app/utils/scraper.py:57-65 | deriving a name twice gives the name derived once |
| Scraper.ScrapeScreenerPdfs | app/utils/scraper.py:27-74 | any exception yields []; otherwise the loop collects exactly `PdfEntries` of the first non-empty selector's links, in page order and without deduplication |
| Scraper.PdfEntriesExactly | app/utils/scraper.py:53-67 | a pair is collected iff some link has a non-empty href containing ".pdf" case-insensitively or "AnnPdf" case-sensitively, and the pair is that href with its suggested filename |
| Scraper.ParseFinancialValue | app/utils/scraper.py:161-187 | "", "-" and "N/A" give None; otherwise a value exactly when float() accepts the text left after removing ",", "%" and the "Cr"/"cr" unit, and then that value. `CleanValueOfDigits`, `CleanValueOfPercent`, `CommasIgnored` and `PlaceholdersDoNotParse` state what the cleaning keeps and drops |
| Scraper.CleanValueOfDigits | app/utils/scraper.py:177-184 | a digit string is handed to float() unchanged |
| Scraper.CleanValueOfPercent | app/utils/scraper.py:177 | a trailing "%" is removed before float() |
| Scraper.ParseFinancialValueExamples | app/utils/scraper.py:161-187 | "", "-" and "N/A" give None; "n" and "n%" parse as n |
| Scraper.CommasIgnored | app/utils/scraper.py:177 | removing the commas first gives the same value |
| Scraper.PlaceholdersDoNotParse | app/utils/scraper.py:172-173 | the placeholder early return agrees with what float() would do on them |
| Scraper.StripEach | app/utils/scraper.py:125 | each header is its cell's text stripped |
| Scraper.BuildRow | app/utils/scraper.py:137-149 | the inner loop builds exactly `RowRecord`: "metric" to the stripped first cell and headers[i] to the parsed cell i for 1 <= i <= len(headers) - 1 |
| Scraper.AddCell | app/utils/scraper.py:142-149 | one pass of the inner loop adds cell i's parsed value under headers[i] while i <= len(headers) - 1, and otherwise changes nothing |
| Scraper.ExtractFinancialTable | app/utils/scraper.py:77-158 | any exception yields []; otherwise the loop returns exactly `FinancialTable` of the section |
| Scraper.RowRecordShape | app/utils/scraper.py:140-149 | with distinct headers other than "metric", a row record holds "metric" and then one key per header column that has a cell, in column order, each bound to its parsed cell; extra cells are dropped |
| Scraper.RowRecordUniqueKeys | app/utils/scraper.py:140-149 | with distinct headers other than "metric", a row record's keys are unique |
| Scraper.FirstBodyRowSkipped | app/utils/scraper.py:118-129 | when the table has both a thead and a tbody, the first tbody row is skipped as if it were the header row |
| Scraper.RecordsCount | app/utils/scraper.py:131-151 | one record per walked row with at least two cells |
| Scraper.SearchFromMeans | app/utils/scraper.py:200 | `re.search` finds a match iff one exists, and then the leftmost one |
| Scraper.GroupAtSound | app/utils/scraper.py:200 | a match's group is non-empty and slash-free, and "/company/" + group + "/" occurs at the match |
| Scraper.ExtractCompanySymbol | app/utils/scraper.py:190-203 | without a match the symbol is "UNKNOWN"; otherwise it is non-empty, slash-free and occurs as "/company/SYMBOL/" in the URL |
| Scraper.SymbolOfCompanyUrl | app/utils/scraper.py:195-202 | ".../company/TCS/consolidated/" gives "TCS": the segment after the first "/company/" |
| FinancialExtractor.MetricName | app/tools/financial_extractor.py:235 | reading the metric name succeeds iff the "metric" cell, or the "" default, is a string |
| FinancialExtractor.Field | app/tools/financial_extractor.py:239-252 | a row maps to at most one of the four standard fields |
| FinancialExtractor.ChainDropsRows | app/tools/financial_extractor.py:239-252 | the elif chain drops rows: a bare "sales" row and an "opm %" row set nothing, a "profit" row never sets the margin or EPS, and only a "margin" row sets the margin |
| FinancialExtractor.NonMetric | app/tools/financial_extractor.py:225 | the kept keys are exactly the keys other than "metric" |
| FinancialExtractor.QuarterColumns | app/tools/financial_extractor.py:225 | at most `quarters` columns, each a non-"metric" key of the first row |
| FinancialExtractor.QuarterMetrics | app/tools/financial_extractor.py:231-252 | the inner loop over the rows builds exactly `QuarterEntry` for the column |
| FinancialExtractor.QuarterEntryRaisedStays | app/tools/financial_extractor.py:234-235 | once a row's metric name raises, the rest of the rows do not matter |
| FinancialExtractor.EntriesRaisedStays | app/tools/financial_extractor.py:230-254 | once a column raises, the later columns do not matter |
| FinancialExtractor.TransformTableToMetrics | app/tools/financial_extractor.py:208-259 | the nested loops and the growth step return exactly `Transform` of the table |
| FinancialExtractor.TransformShape | app/tools/financial_extractor.py:220-254 | an empty table gives []; otherwise one entry per quarter column, in order, each starting with its "quarter" tag, and every entry after the first is the inner loop's dict for its column |
| FinancialExtractor.QuarterEntryTagged | app/tools/financial_extractor.py:231 | every quarter entry starts with ("quarter", column) |
| FinancialExtractor.QuarterEntryReadAll | app/tools/financial_extractor.py:234-235 | a successful inner loop read every row's metric name |
| FinancialExtractor.QuarterEntryLastWins | app/tools/financial_extractor.py:234-252 | a field holds the cell of the last row that maps to it: later rows overwrite earlier ones |
| FinancialExtractor.QuarterEntryAbsent | app/tools/financial_extractor.py:234-252 | a field no row maps to is absent from the entry |
| FinancialExtractor.EntriesShape | app/tools/financial_extractor.py:230-254 | one entry per column, each the inner loop's dict for that column |
| FinancialExtractor.WithGrowth | app/tools/financial_extractor.py:261-282 | a list shorter than two comes back unchanged; otherwise the length and every entry after the first are unchanged |
| FinancialExtractor.WithGrowthKeepsOtherKeys | app/tools/financial_extractor.py:261-282 | apart from the two growth keys the first entry reads as before |
| FinancialExtractor.WithGrowthKeepsTag | app/tools/financial_extractor.py:267-280 | the first entry keeps its "quarter" tag in front |
| FinancialExtractor.GrowthRecoversLatest | app/tools/financial_extractor.py:270-280 | a growth figure is reported only when both entries hold the key with numbers and the previous one is non-zero, and then latest = previous + previous · g / 100 |
| FinancialExtractor.GrowthOnMissingLatestRaises | app/tools/financial_extractor.py:270-273 | a None latest value against a non-zero previous one raises a TypeError |
| FinancialExtractor.UrlMetrics | app/tools/financial_extractor.py:57-71 | a failed table extraction gives [] |
| FinancialExtractor.ExtractFromUrl | app/tools/financial_extractor.py:44-71 | the method returns exactly `UrlMetrics`: [] for an empty table or any exception, else the transformed metrics |
| FinancialExtractor.PageText | app/tools/financial_extractor.py:136-139 | the PyPDF2 loop gets through all pages iff no page fails |
| FinancialExtractor.PageTextStopsAtFailure | app/tools/financial_extractor.py:136-143 | the text after a failing page is exactly the text of the pages before it |
| FinancialExtractor.ExtractTextFromPdf | app/tools/financial_extractor.py:131-153 | the first strategy's text when it finished and is non-blank, else pdfminer's text when non-blank, else whatever text is left |
| FinancialExtractor.ExtractFromPdf | app/tools/financial_extractor.py:73-99 | no text gives {}; otherwise the parsed metrics |
| FinancialExtractor.ExtractFromPdfs | app/tools/financial_extractor.py:101-129 | a missing directory gives []; otherwise the metrics of the financial-looking *.pdf files, in glob order |
| FinancialExtractor.PdfMetricsTagged | app/tools/financial_extractor.py:120-126 | every entry comes from a *.pdf name containing "financial_report" or "result", is tagged with its name, and there is at most one per file |
| FinancialExtractor.ParseRunInput | app/tools/financial_extractor.py:297-299 | the URL is the stripped first "," field; a count other than 2 needs a second field; int() rejecting that stripped field raises the "invalid literal for int() with base 10: " message |
| FinancialExtractor.RunInputWithoutComma | app/tools/financial_extractor.py:297-299 | without a comma the stripped input is the URL and two quarters are asked for |
| FinancialExtractor.RunInputFields | app/tools/financial_extractor.py:297-299 | "url,q[,...]" gives the stripped URL and int(q), later fields ignored; a non-integer q raises ValueError with the message "invalid literal for int() with base 10: " and the repr of the stripped count |
| FinancialExtractor.RunInputRoundTrip | app/tools/financial_extractor.py:297-299 | url + "," + str(q) parses back to (url stripped, q) |
| FinancialExtractor.QuarterBlock | app/tools/financial_extractor.py:314-325 | the block for entry i starts "Quarter i: " |
| FinancialExtractor.FormatReport | app/tools/financial_extractor.py:312-325 | the `+=` loop builds the header followed by one block per shown entry, numbered from 1 |
| FinancialExtractor.Run | app/tools/financial_extractor.py:284-331 | the method returns `RunOutput`: the URL metrics, else the PDF metrics; none gives "No financial metrics could be extracted."; a count int() rejects gives "Error extracting financial data: " followed by int()'s own message; at most `quarters` entries are shown |
| FinancialExtractor.BadCountRaises | app/tools/financial_extractor.py:297-299 | a count int() rejects raises ValueError with "invalid literal for int() with base 10: " and the repr of the stripped count |
| FinancialExtractor.RunBadCountMessage | app/tools/financial_extractor.py:295-331 | such a count makes `run` return "Error extracting financial data: " followed by that message |
| FinancialExtractor.IntErrorMessagePlain | app/tools/financial_extractor.py:299 | for a count of plain printable characters without a quote or backslash, the message ends with the count between single quotes |
| PyStr.ReprPlain | app/tools/financial_extractor.py:331 | `repr()` shows a string of such characters as itself between single quotes |
| FinancialExtractor.UrlMetricsWin | app/tools/financial_extractor.py:302-306 | when the page yields metrics the PDF folder is never consulted |
| QualitativeAnalysis.QualitativeAnalysisTool.LoadFiles | app/tools/qualitative_analysis.py:105-126 | the loading loop gathers exactly `Loaded`: each file's pages in file order, tagged with the file, files without pages skipped (see `LoadedTagged`) |
| QualitativeAnalysis.AllPdfs | app/tools/qualitative_analysis.py:97 | the fallback list holds exactly the listing's *.pdf names |
| QualitativeAnalysis.TranscriptPdfs | app/tools/qualitative_analysis.py:89-92 | the preferred list holds exactly the *.pdf names whose lower-cased form contains "transcript" |
| QualitativeAnalysis.SelectedFilesMeans | app/tools/qualitative_analysis.py:87-101 | the transcript PDFs when there are any, otherwise all PDFs; nothing is selected iff there is no PDF |
| QualitativeAnalysis.SelectTranscriptFiles | app/tools/qualitative_analysis.py:88-97 | the two glob loops select exactly `SelectedFiles` |
| QualitativeAnalysis.LoadPdfRobust | app/tools/qualitative_analysis.py:180-208 | a non-empty result has a non-blank page and is what the first loader, or else the second, returned |
| QualitativeAnalysis.Tag | app/tools/qualitative_analysis.py:116-117 | every page is tagged with the file's name, its content kept |
| QualitativeAnalysis.LoadedTagged | app/tools/qualitative_analysis.py:107-126 | every loaded page carries the name of a file it was loaded from |
| QualitativeAnalysis.KOf | app/tools/qualitative_analysis.py:232 | a None or 0 k becomes RAG_K (5); any other k is kept |
| QualitativeAnalysis.ChunkEntry | app/tools/qualitative_analysis.py:310-312 | chunk i's entry starts "i. [From: SOURCE]", the source defaulting to "Unknown" |
| QualitativeAnalysis.ChunkEntriesPrefix | app/tools/qualitative_analysis.py:309-312 | the entries are numbered in retrieval order: those of a prefix of the chunks open those of all of them |
| QualitativeAnalysis.FormattedChunksShape | app/tools/qualitative_analysis.py:303-314 | no chunks give "No relevant information found in transcripts."; otherwise the header and entry 1 open the text and the last chunk's entry closes it |
| QualitativeAnalysis.QualitativeAnalysisTool.FormatChunks | app/tools/qualitative_analysis.py:303-314 | the `+=` loop builds exactly `FormattedChunks`, whose shape `FormattedChunksShape` states |
| QualitativeAnalysis.NoDataExactly | app/tools/qualitative_analysis.py:221-230 | "No transcript data available for analysis." is returned iff there is no index in memory, none on disk, and building one does not succeed |
| QualitativeAnalysis.AnswerFallsBackToChunks | app/tools/qualitative_analysis.py:239-301 | without an LLM, or when it raises, the answer is the formatted chunk list |
| QualitativeAnalysis.QueryStateSettles | app/tools/qualitative_analysis.py:221-225 | after one query the state no longer changes: later queries load or build nothing |
| QualitativeAnalysis.QueryWithIndex | app/tools/qualitative_analysis.py:221 | with an index in memory `query` neither loads nor builds and answers from it |
| QualitativeAnalysis.AskAll | app/tools/qualitative_analysis.py:332-339 | one result per question |
| QualitativeAnalysis.AskAllKeys | app/tools/qualitative_analysis.py:334-337 | the results hold one entry per question key, in question order |
| QualitativeAnalysis.AskAllKeepsState | app/tools/qualitative_analysis.py:334-336 | with an index in memory the questions change nothing |
| QualitativeAnalysis.AskAllWithIndex | app/tools/qualitative_analysis.py:334-337 | with an index in memory each answer is that index's answer to its question with k = 3 |
| QualitativeAnalysis.ComprehensiveReport | app/tools/qualitative_analysis.py:357-362 | the report opens with "Comprehensive Qualitative Analysis:" |
| QualitativeAnalysis.QualitativeAnalysisTool.constructor | app/tools/qualitative_analysis.py:34-48 | a new tool has its LLM, no index and no embeddings |
| QualitativeAnalysis.QualitativeAnalysisTool.InitializeEmbeddings | app/tools/qualitative_analysis.py:50-64 | embeddings always end set, the fake model standing in when the real one fails |
| QualitativeAnalysis.QualitativeAnalysisTool.LoadVectorStore | app/tools/qualitative_analysis.py:153-178 | succeeds iff an index is saved on disk, and then sets it |
| QualitativeAnalysis.QualitativeAnalysisTool.BuildVectorStore | app/tools/qualitative_analysis.py:66-151 | returns True iff the index was built and saved; the index is set even when saving fails |
| QualitativeAnalysis.QualitativeAnalysisTool.Query | app/tools/qualitative_analysis.py:210-258 | result and new state are `QueryOutcome`: load, then build, then the no-data answer; retrieval errors become "Error during analysis: ..." |
| QualitativeAnalysis.QualitativeAnalysisTool.AnalyzeComprehensive | app/tools/qualitative_analysis.py:316-339 | the five fixed questions are asked in order, each with k = 3 |
| QualitativeAnalysis.QualitativeAnalysisTool.AskEach | app/tools/qualitative_analysis.py:334-337 | the loop stores each question's answer under its key |
| QualitativeAnalysis.QualitativeAnalysisTool.Run | app/tools/qualitative_analysis.py:341-368 | input containing "comprehensive" or "overall", case-insensitively, gets the five-question report; any other input one query's answer |
| AgentPipeline.ExtractTrends | app/services/agent_pipeline.py:442-457 | one to three trends; each word's trend is present iff the lower-cased text contains the word; they come in the order growth, margin, profit; the result is ["Financial data extracted"] iff no word occurs |
| AgentPipeline.CandidateBounds | app/services/agent_pipeline.py:337-338 | the first index holding '{' and one past the last index holding '}' |
| AgentPipeline.CandidateBraced | app/services/agent_pipeline.py:335-339 | the candidate runs from the first '{' through the last '}' inclusive, and is empty when the last '}' precedes the first '{' |
| AgentPipeline.ParseAgentOutput | app/services/agent_pipeline.py:329-371 | never the fallback status; a parsed or partial result carries the output text, an error carries str(agent_result); a parsed result is what json.loads gives for the braced candidate of an output holding both braces. `PartialExactly`, `BracedOutcome` and `ReversedBracesFail` state each status |
| AgentPipeline.PartialExactly | app/services/agent_pipeline.py:349-363 | the status is "partial" iff the output lacks '{' or '}', and then summary and assessment are the whole output, the lists empty, the outlook "See summary" and the confidence "low" |
| AgentPipeline.BracedOutcome | app/services/agent_pipeline.py:335-371 | with both braces the result is the parsed candidate with the output text, or an error carrying str(agent_result) |
| AgentPipeline.ReversedBracesFail | app/services/agent_pipeline.py:337-371 | a last '}' before the first '{' gives the empty candidate and so the "error" status |
| AgentPipeline.SynthesizeFallbackForecast | app/services/agent_pipeline.py:422-440 | the summary embeds exactly the first min(200, n) characters of the financial text; the assessment is exactly the first min(500, m) characters of a non-empty qualitative text, or "Limited qualitative data available" when it is empty; outlook, risks, opportunities and "medium" confidence are fixed |
| AgentPipeline.FallbackIgnoresMarket | app/services/agent_pipeline.py:427-438 | the market output is read but never used |
| AgentPipeline.ToolResults | app/services/agent_pipeline.py:386-404 | the results hold "financial_data", "qualitative_analysis" and, only when asked for, "market_data" |
| AgentPipeline.FallbackDirectExecution | app/services/agent_pipeline.py:373-420 | always the fallback status with medium confidence, its trends read from the financial tool's answer to "url,quarters"; `FallbackMarketIrrelevant` and `FallbackInputsUnderstood` relate it to the tools |
| AgentPipeline.FallbackMarketIrrelevant | app/services/agent_pipeline.py:400-407 | running the market tool or not makes no difference to the fallback forecast |
| AgentPipeline.FallbackInputsUnderstood | app/services/agent_pipeline.py:392-397 | the financial tool parses back the caller's stripped URL and quarter count, and "comprehensive overall analysis" takes the comprehensive path |
| AgentPipeline.RunAgentForecast | app/services/agent_pipeline.py:178-245 | the direct fallback is used iff building or invoking the agent raised |
| AgentPipeline.PrepareData | app/services/agent_pipeline.py:90-133 | no scraped link gives the warning and leaves the folder alone; otherwise the first min(quarters · 3, number of links) links are downloaded in order, the folder becomes `AfterLinks` of them and the result lists their `Reports` |
| AgentPipeline.GenerateForecast | app/services/agent_pipeline.py:135-176 | the PDFs are prepared, leaving the folder as `PrepareData` does, the symbol read from the URL, and the agent forecast run for it |
| QualitativeTool.FilterLinks | app/services/qualitative_tool.py:13 | the kept links are exactly those whose lower-cased form contains one of the ten keywords |
| QualitativeTool.FilterLinksConcat | app/services/qualitative_tool.py:13 | the filter works link by link, so it keeps the links' order |
| QualitativeTool.TranscriptLimit | app/services/qualitative_tool.py:14 | the limit max(2 · quarters, 4) is at least 4 and at least 2 · quarters |
| QualitativeTool.SelectLinks | app/services/qualitative_tool.py:13-14 | the downloaded links are the first min(limit, number filtered) filtered links |
| QualitativeTool.KeptTexts | app/services/qualitative_tool.py:16-20 | every kept text has a stripped length over 50, and there are no more texts than files |
| QualitativeTool.KeptTextsExactly | app/services/qualitative_tool.py:17-20 | a text is kept iff some downloaded file yields it and its stripped length exceeds 50 |
| QualitativeTool.KeepTexts | app/services/qualitative_tool.py:16-20 | the loop keeps exactly `KeptTexts`, in download order |
| QualitativeTool.ExtractEarningsTranscripts | app/services/qualitative_tool.py:10-21 | links, filter, limit, download and text loop compose to `Transcripts`, a failed fetch or download raising |
| QualitativeTool.BuildRagIndex | app/services/qualitative_tool.py:23-32 | the nested loop chunks every text in order; the result never returns if one chunking never does |
| QualitativeTool.DivergenceStays | app/services/qualitative_tool.py:26-28 | once the chunker has not returned on a text, the whole loop does not return |
| QualitativeTool.RagIndexNoneExactly | app/services/qualitative_tool.py:26-30 | when every chunking returns, the index is None iff no text gave a chunk |
| QualitativeTool.DefaultChunkingDiverges | app/services/qualitative_tool.py:27 | the divergence recorded for the default `chunk_text(t)` is its loop staying below the end after every pass |
| QualitativeTool.DefaultIndexDiverges | app/services/qualitative_tool.py:26-28 | with the default chunking, one non-empty text makes the index build never return |
| QualitativeTool.StoppingChunkingNonEmpty | app/services/qualitative_tool.py:27-30 | the stopping chunker gives a non-empty text at least one chunk, so the index is never None |
| QualitativeTool.Answers | app/services/qualitative_tool.py:55-61 | one result per question |
| QualitativeTool.AnswersPerKey | app/services/qualitative_tool.py:56-61 | each question's key gets its own answer, "Error in retrieval/LLM" exactly where that call raised |
| QualitativeTool.AskQueries | app/services/qualitative_tool.py:55-61 | the loop stores exactly `Answers` |
| QualitativeTool.QualitativeAnalysis | app/services/qualitative_tool.py:34-69 | the method returns `AnalysisOf`: the early returns, then the five answers renamed to the output keys |
| QualitativeTool.EarlyReturns | app/services/qualitative_tool.py:36-41 | no transcripts give "No transcripts found"; transcripts without chunks give "No textual content to analyze" |
| QualitativeTool.AnalysedFields | app/services/qualitative_tool.py:63-69 | summary, themes, risks, opportunities and sentiment carry the answers of management_outlook, recurring_themes, risks, opportunities and sentiment |
| QualitativeTool.AsWrittenNeverAnalyses | app/services/qualitative_tool.py:34-41 | with `chunk_text`'s defaults the analysis raises, reports no transcripts, or never returns |
| QualitativeTool.CorrectedAnalyses | app/services/qualitative_tool.py:34-69 | with the stopping chunker the analysis always returns, and with a kept transcript it answers the five questions |
| Pipeline.ParseToolInput | app/services/pipeline.py:15-21 | the URL is the stripped field before the first double-bar separator, or the whole stripped input when int() rejects the count; a count other than 2 is the second field read by int(). The round trip, the missing separator and the rejected count are `ToolInputRoundTrip`, `ToolInputWithoutSeparator` and `ToolInputBadCount` |
| Pipeline.ToolInputRoundTrip | app/services/pipeline.py:16-18 | the URL and count joined by the double-bar separator, as run_pipeline_sync joins them, parses back to (url stripped, q) |
| Pipeline.ToolInputWithoutSeparator | app/services/pipeline.py:16-18 | without the double-bar separator the stripped input is the URL and two quarters are asked for |
| Pipeline.ToolInputBadCount | app/services/pipeline.py:19-21 | a count int() rejects makes the whole stripped input, separator included, the URL, with two quarters |
| Pipeline.MarketSymbol | app/services/pipeline.py:43 | the symbol is the stripped input, or "TCS" when that is empty |
| Pipeline.GrowthEstimate | app/services/pipeline.py:104-111 | an estimate exists iff the revenue is a list of at least two numbers whose second is non-zero |
| Pipeline.GrowthEstimateMeans | app/services/pipeline.py:107-108 | the estimate recovers the latest revenue from the previous one and is positive iff revenue rose |
| Pipeline.FallbackForecast | app/services/pipeline.py:113-117 | the forecast has exactly the keys revenue_growth_estimate, margin_outlook, confidence |
| Pipeline.FallbackResult | app/services/pipeline.py:104-130 | a result exists iff the financial and qualitative outputs are objects (any other JSON value raises on `.get`), and it then has the seven keys company … forecast |
| Pipeline.FallbackFields | app/services/pipeline.py:119-130 | company, quarters_analyzed, financial_metrics, qualitative_summary and market_price are the caller's values and the tool outputs |
| Pipeline.FallbackRisks | app/services/pipeline.py:124-127 | risks_and_opportunities has the keys risks and opportunities; each is null when the qualitative output lacks that key, and otherwise, keys being unique as json.loads leaves them, a copy of its value there |
| Pipeline.RunPipelineSync | app/services/pipeline.py:62-132 | a returned result needs the agent to have returned text; when that text is not JSON, the result is the object with the seven fixed keys; the run fails to return only when the agent or, on the fallback path, the qualitative service does not. The agent and fallback paths are stated by `AgentAnswerWins`, `FallbackUsesCallerArguments` and `FallbackServiceFailures` |
| Pipeline.AgentAnswerWins | app/services/pipeline.py:91-96 | JSON from the agent is returned as it is; an exception from the agent propagates; an agent that never returns makes the call never return |
| Pipeline.FallbackInputs | app/services/pipeline.py:99-100 | the fallback's tool inputs reach the services as the caller's stripped URL and quarter count |
| Pipeline.MarketAlwaysTcs | app/services/pipeline.py:101 | the fallback's market call looks up "TCS" |
| Pipeline.FallbackUsesCallerArguments | app/services/pipeline.py:97-130 | when the agent's answer is not JSON and the three services return, the services see the caller's stripped URL and count, the price is looked up for "TCS", and the result has the seven keys, holding the caller's URL and count and the three outputs |
| Pipeline.FallbackServiceFailures | app/services/pipeline.py:97-101 | in the fallback a raising financial service decides the outcome; then a qualitative service that never returns makes the call never return, one that raises decides it; then a raising market service decides it; the call never returns exactly when the qualitative service does not |
| MarketData.GetLivePrice | app/tools/market_data.py:33-78 | "success" iff the library answered with data holding "current_value", whose value is the price; "no_data" otherwise; a missing library gives "fallback" and any other exception "error" with its message |
| MarketData.GetMarketContext | app/tools/market_data.py:99-131 | the `+=` builder produces exactly `Context` of the quote, the price line carrying the source's literal "â‚¹" mark |
| MarketData.ContextHeaderExactly | app/tools/market_data.py:111-131 | the text opens with "Live Market Data for" iff the quote succeeded |
| MarketData.FailureNamesSymbolAndError | app/tools/market_data.py:126-131 | a failed quote reads "Unable to fetch market data for SYMBOL: " and ends with the error |
| MarketData.SuccessExtras | app/tools/market_data.py:111-124 | a success prints the head lines, then a Change line only when "change" exists and a % Change line only when "pChange" exists |
| MarketData.Run | app/tools/market_data.py:133-155 | the context for the stripped, upper-cased symbol |
| MarketData.NormaliseIdempotent | app/tools/market_data.py:146 | normalising a normalised symbol changes nothing |

Some behaviour of the code is easy to misread, and the model keeps it as written:

- `chunk_text` validates neither argument. On non-empty text it never leaves its
  loop for any positive overlap, nor when chunk_size <= overlap (see Findings);
  a non-positive chunk_size with a smaller overlap returns, slicing with a
  negative end.
- `extract_company_symbol` returns "UNKNOWN" for a URL it cannot read; only the
  research copies raise.
- `get_live_price` answers with the status success, no_data, fallback or error.
- `scrape_screener_pdfs` keeps duplicate links, and every downloader writes over
  an existing file of the same cleaned name before classification renames it.
- `_extract_text_from_pdf` returns pdfminer's text even when it is blank.
- The qualitative service of `run_pipeline_sync` can raise or never return (its
  chunker loops on the default overlap), so the fallback's outcome is a `Run` of
  an `Outcome`.
- The price line of market_data.py carries the rupee sign as the three
  characters "â‚¹", the UTF-8 bytes of "₹" read as Windows-1252 text, and the
  model prints those three (`MarketData.PriceMark`).

## Left out

- TextChunker.ChunkText: requires the text to be empty or overlap <= 0 and overlap < chunk_size, exactly the calls whose loop returns (`ReturnsExactly`); the others have no result to state, and `NeverExits`, `FinalWindowIsFixpoint` and `DefaultCallNeverReturns` state what their loop does instead.
- Sweep.SweepNext: requires the name to be in the folder and not yet visited, which holds because `os.listdir` lists each file once.
- Sweep.SweepListing: requires the listing to name every file of the folder exactly once, as `os.listdir` does; the model does not let the folder change during the sweep.
- Scraper.BuildRow: requires at least two cells, the guard the loop applies before building a row.
- PdfDownloader.CapSafe: states only that the cap keeps the name free of forbidden characters and of "__"; the cut to 195 characters can leave the stem ending in a space or a dot, and the code does not strip it again.
- Scraper.SubUnsafe: `\w` is taken as the ASCII letters, digits and '_'; Python 3's `re` also counts Unicode letters and digits (such as "é") as word characters and would keep them.
- PyStr.LowerChar and PyStr.UpperChar: change only A–Z and a–z; Python's `lower()` and `upper()` also map non-ASCII letters.
- PyStr.ParseInt: accepts an optional sign and ASCII digits around `isspace()` whitespace; Python's `int()` also accepts digit underscores ("1_0") and non-ASCII decimal digits.
- PyStr.Repr: escapes only the quote, the backslash and ASCII control characters; Python's `repr()` also escapes non-printable non-ASCII characters.
- Pipeline.FallbackResult: a non-object output raises with the exception name "AttributeError" in place of Python's full message.
- Floating point: `round(growth, 2)` in `_calculate_growth_rates` is not modelled: `FinancialExtractor.Growth` stores the exact real `(latest - previous) / previous * 100`, so `GrowthRecoversLatest` is about the unrounded figure. The `:.2%` growth format in pipeline.py and `str()` of numbers in reports are function parameters (`percent`, `show`, `showNumber`); all values are exact reals.
- `float()`: `ParseFloat` accepts an optional sign, digits and at most one '.'; exponents, digit underscores, inf and nan are not modelled.
- `_parse_financial_text` in app/tools/financial_extractor.py: Python regular expressions with IGNORECASE and float conversion; its result is a parameter `parse`.
- `json.dumps` and `json.loads` in pipeline.py: the tool outputs are JSON values passed through unchanged; `json.loads` of agent text is a parameter.
- The language model, the agent (`create_react_agent`, `AgentExecutor`, `initialize_agent`, `RetrievalQA`) and all prompt text: their answers are parameters or `Outcome`s. The agent output is taken to be a string.
- FAISS embeddings, similarity search and scores: an index is the sequence of documents it holds; retrieval is a parameter.
- `RecursiveCharacterTextSplitter`, `UnstructuredLoader`, `PyPDFLoader`, `PDFMinerLoader`, `WebBaseLoader`, PyPDF2 and pdfminer: their results are parameters.
- requests, BeautifulSoup selection and `urljoin`: a page is the anchors, table rows or iframe it yields; `urljoin` is a parameter.
- `datetime.now()`, `datetime.utcnow().isoformat()` and the file system outside the download folder: the clock is a parameter, the folder a `Folder` object; directory creation, paths and the import-time folder reset of research/raw_code.py are not modelled.
- strptime: the "D:" form is read as exactly fourteen digits and the locale form as the fixed 34-character layout "Fri 12 Oct 2018 05:53:59 PM +05:30"; strptime's variable-width fields and locale-dependent names are not modelled.
- The `KnowledgePool` that run_pipeline_sync creates and never uses.
- Logging and `print`.
- research/raw.py `run` and `user_query_answer`: a loop of `download_pdf` calls and an LLM chain with no logic of their own.
- app/utils/pdf_utils.py, app/services/financial_tool.py and app/services/market_tool.py: the pipeline's services are parameters (`Services`); the financial and market services may raise, and the qualitative one may also never return.
- The web and Streamlit front ends, the database layer and app/config.py (only its defaults 1000, 200 and 5 are used).

## Findings

| source | as written | input that shows it | evidently intended | confidence | as-written member | corrected member |
|---|---|---|---|---|---|---|
| app/utils/text_chunker.py:13-18 | after the window that reaches the end, `start = end - overlap` moves back below the end, so with the default overlap 200 (and any positive overlap) the loop repeats the final window forever; `build_rag_index` calls it with the defaults | `chunk_text("a")`, or any non-empty transcript in `build_rag_index` | stop after the window that reaches the end of the text, so the chunks cover the text and overlap by `overlap` characters | not executed | TextChunker.DefaultCallNeverReturns, QualitativeTool.AsWrittenNeverAnalyses | TextChunker.ChunkTextStopping, TextChunker.StoppingRoundTrip, QualitativeTool.CorrectedAnalyses |
