# Legal-case pipeline: a Dafny model

This project models the string handling and bookkeeping of a small legal-case prototype.

The first part is a batch script (admin.py). It walks a folder of case PDFs named `case_<id>.pdf`, `case_<id>_int….pdf` and `case_<id>_jud.pdf`. For each case it does four things:
- It derives the case id from the file name.
- It gathers the text of the general-details, interim and judgment documents, page by page.
- It pulls five fields out of the general-details text with regular expressions.
- It keeps one record per case: the summary from a hosted language model, the case id and the extracted details.

The second part is a Flask front end (app.py). It answers `/case/<id>` from a vector store and forwards chat queries to a chat resumed from a saved history, returning the model's plain reply text. app.py also defines a helper, `to_markdown`, that formats text as a Markdown quote; no handler calls it.

Modules:

- `Wrappers`: `Option`.
- `Str`: the Python `str` built-ins the code relies on, over `seq<char>`:
  - `isspace` with Python's whitespace table, `strip`, ASCII `upper`.
  - `split` and `join` with a one-character separator, and `"".join`.
- `Regex`: the three pattern shapes `extract_case_details` compiles: `open(.+?)close`, `prefix(\d{2}-\d{2}-\d{4})` and `prefix(\w+)`.
  - `MatchesAt` says declaratively where and with which group length a pattern can match.
  - `IsPythonMatch` says which of those matches `re.search` reports: the leftmost start, then the shortest lazy group or the longest greedy one.
  - `Search` computes that match, and is proved against both predicates.
- `CaseDetails`: `extract_case_details`.
- `CaseFiles`:
  - `extract_text_from_pdf` as a method with its page loop.
  - Case-id derivation from a file name.
  - `process_case_files` as a method with its loop over the listing.
- `Batch`: `process_all_cases` as a method with its loop, its `processed_cases` set and its `data_to_pickle` list. It is proved against `Dedup(CaseIds(listing))` and `RecordsFor`.
- `Markdown`: `to_markdown`, with `textwrap.indent` over `str.splitlines(keepends=True)`.
- `Handlers`: the decisions of `get_case` and `send_case_query`.

How the environment is represented:

- **Folders.** A cases folder is a `Folder`: the directory listing in `os.listdir` order, plus the page texts pdfplumber yields for each PDF that can be opened. `os.path.exists` on a file of the folder becomes membership in the listing. The checks that the folder itself exists and is a directory become the `CasesDir` input.
- **Batch model calls.** The model calls of one case are the `Summariser` oracle: `start_case_chat` followed by `generate_content`. It gives the summary text, or `None` when a call raised.
- **Chat model call.** In `send_case_query` the model's answer is the `reply` parameter, and the saved histories are a map from case id.

## Model

| member | source | states |
|---|---|---|
| Str.LeadingSpace | admin.py:33-38 | the count of leading whitespace characters `strip` removes: all of them are whitespace and the next one is not |
| Str.TrailingSpace | admin.py:33-38 | the count of trailing whitespace characters `strip` removes: all of them are whitespace and the one before is not |
| Str.Strip | admin.py:33-38 | `.strip()` is a slice of its input with no whitespace at either end and only whitespace around it |
| Str.StripKeepsChars | admin.py:33-38 | `.strip()` yields only characters of its input |
| Str.StripStripped | admin.py:33-38 | `.strip()` leaves a string with no whitespace at its ends unchanged |
| Str.StripIdempotent | admin.py:33-38 | stripping twice is stripping once |
| Str.Split | admin.py:119 | `split(sep)` gives at least one piece, no piece holds the separator, and joining the pieces with it gives the input back |
| Str.SplitFirst | admin.py:119 | the first piece of a split runs up to the first separator, or to the end |
| Str.SplitAfterHead | admin.py:119 | splitting `head + sep + tail`, where `head` has no separator, gives `head` and then the pieces of `tail` |
| Str.ConcatAppend | admin.py:70 | `"".join` of a list with one more element appends that element's text |
| Regex.LazyGroup | admin.py:27 | the `.+?` scan from a given length finds the shortest group that `.` can consume and the closing label follows, or proves there is none |
| Regex.WordRun | admin.py:31 | the `\w+` scan finds the maximal run of word characters |
| Regex.LazyAt | admin.py:27 | at one start, `open(.+?)close` gives the shortest possible group, or none when no group length can match |
| Regex.DateAt | admin.py:28-29 | at one start, the date pattern gives its ten-character group, or none when it cannot match |
| Regex.WordAt | admin.py:31 | at one start, `prefix(\w+)` gives the longest possible group, or none when it cannot match |
| Regex.MatchAt | admin.py:27-31 | at one start, the group length the engine settles on, or none when the pattern cannot match there |
| Regex.SearchFrom | admin.py:33-38 | the scan from a position reports the first start at which the pattern matches, or none when no later start matches |
| Regex.Search | admin.py:33-38 | `re.search` gives no match exactly when the pattern matches nowhere, and otherwise the leftmost, preferred match |
| Regex.GroupShape | admin.py:27-31 | a date group is `dd-dd-dddd`, a `\w+` group is a non-empty run of word characters, a `.+?` group is non-empty and has no newline |
| Regex.PythonMatchUnique | admin.py:33-38 | at most one match satisfies the `re.search` specification, so `Search` is determined by it |
| CaseDetails.Field | admin.py:33-38 | a field is `""` without a match, otherwise the stripped group 1 of the match `re.search` reports, and it is always stripped |
| CaseDetails.GroupNeedsNoStrip | admin.py:34-38 | the group of a date or `\w+` match has no whitespace to strip |
| CaseDetails.UnstrippedField | admin.py:34-38 | a date or `\w+` field is exactly group 1 of the reported match |
| CaseDetails.DateFieldShape | admin.py:28-29 | a date field is empty exactly when its pattern matches nowhere, and otherwise is `dd-dd-dddd` |
| CaseDetails.WordFieldShape | admin.py:31 | the status field is empty exactly when its pattern matches nowhere, and holds only word characters |
| CaseDetails.LazyFieldSingleLine | admin.py:27 | a `.+?` field holds no newline |
| CaseDetails.ExtractCaseDetails | admin.py:26-51 | every field with no match is `""`, and every field is the (stripped) group 1 of the reported match. A status that upper-cases to `PENDING` clears the disposed date. The two dates are empty or `dd-dd-dddd`, and each is non-empty exactly when its pattern matches (and, for the disposed date, the case is not pending). The status is a run of word characters. The filing number and case type are stripped and single-line |
| CaseDetails.UpperIsPending | admin.py:40 | `case_status.upper() == 'PENDING'` holds exactly when the status is "pending" in any mix of upper and lower case |
| CaseDetails.PendingClearsDisposedDate | admin.py:40-41 | a status such as "Pending" or "pending" clears the disposed date; a non-empty disposed date comes from a match and a status that is not "pending" in any case |
| CaseFiles.PdfText | admin.py:17-20 | the text is empty exactly when every page is empty, and otherwise ends with a newline |
| CaseFiles.ExtractTextFromPdf | admin.py:13-23 | the page loop builds the concatenation of `page + "\n"` over the non-empty pages |
| CaseFiles.CaseFileLength | admin.py:118 | a name that starts with `case_` and ends with `.pdf` is at least nine characters long, with a `.` four from its end |
| CaseFiles.CaseIdOf | admin.py:118-119 | an id exists exactly for `case_*.pdf` names. It holds neither `_` nor `.`, starts right after `case_`, and is followed by `_` or `.` |
| CaseFiles.SplitCaseFileName | admin.py:119 | `filename.split('_')[1].split('.')[0]` is defined for every `case_*.pdf` name and is the run after `case_` up to the first `_` or `.` |
| CaseFiles.SecondPiece | admin.py:119 | the second `_`-piece of a `case_` name is the first piece of what follows `case_` |
| CaseFiles.IdEndsRun | admin.py:119 | the id stops at a `_` or `.` before the end of the name |
| CaseFiles.CaseIdUnique | admin.py:119 | any run after `case_` with those properties is the derived id |
| CaseFiles.GeneralFileExample | admin.py:118-119 | `case_12.pdf` yields `"12"` |
| CaseFiles.InterimFileExample | admin.py:118-119 | `case_12_int1.pdf` yields `"12"` |
| CaseFiles.JudgmentFileExample | admin.py:118-119 | `case_12_jud.pdf` yields `"12"` |
| CaseFiles.OwnFilesCarryId | admin.py:59-72 | every file `process_case_files` reads for an id (general, interim, judgment) yields that same id |
| CaseFiles.InterimFileCarriesId | admin.py:66 | a name passing the interim filter for an id yields that id |
| CaseFiles.InterimTextsAppend | admin.py:65-70 | interim texts follow the listing order: a listing made of two parts gives the texts of the first part, then those of the second |
| CaseFiles.InterimTextEmpty | admin.py:64-70 | the interim text is empty exactly when every listed interim document of the case gave no text |
| CaseFiles.NoFilesNoText | admin.py:54-77 | a case id that no listed file carries gives no text at all |
| CaseFiles.ProcessCaseFiles | admin.py:54-77 | the loop returns the general text (if listed), the in-order concatenation of the interim texts, and the judgment text (if listed) |
| Batch.CaseIdsMembers | admin.py:117-119 | the ids met in the listing are exactly the ids of its `case_*.pdf` files |
| Batch.Dedup | admin.py:114-121 | the `processed_cases` filter keeps every id once and only ids that occur |
| Batch.FirstIndexExtended | admin.py:117-121 | appending to a sequence does not move the first occurrence of an element already in it |
| Batch.DedupFirstAppearance | admin.py:117-121 | ids are handled in the order of their first appearance in the listing |
| Batch.RecordsForSound | admin.py:122-137 | every saved record is what handling one of the handled ids produces |
| Batch.RecordsForComplete | admin.py:122-137 | every handled id whose handling produces a record has it saved |
| Batch.RecordsForDistinct | admin.py:120-137 | distinct handled ids give records with distinct `file_id`s |
| Batch.RecordMeaning | admin.py:124-137 | a record is kept exactly when some text was extracted and the model calls did not raise; it holds the summary, the id and the details of the general text |
| Batch.HandleCase | admin.py:122-143 | the `try` block appends the record of the case, or nothing |
| Batch.ProcessAllCases | admin.py:105-149 | a missing folder or a non-directory saves nothing. Otherwise every distinct id is handled once, in first-appearance order, and the saved list is the records of those ids |
| Batch.SavedRecords | admin.py:114-143 | the saved `file_id`s are pairwise distinct. Each saved case gave some text and is named by a listed file. Every listed case whose handling succeeds is saved |
| Markdown.ReplaceBullets | app.py:23 | no bullet is left, text without a bullet is unchanged, and each bullet adds two characters |
| Markdown.ReplaceBulletsAppend | app.py:23 | replacing bullets in a concatenation is the concatenation of the replaced parts |
| Markdown.ReplaceBulletsChar | app.py:23 | a `•` becomes `"  *"` and any other character is kept, which with the concatenation rule fixes `replace` on every text |
| Markdown.LineLen | app.py:24 | the first line of a non-empty text is non-empty and fits in it; it ends at a line boundary or at the end of the text; no boundary lies inside it except a `\r` whose `\n` closes the line; a line ending in `\r` is not followed by `\n` |
| Markdown.Lines | app.py:24 | `splitlines(keepends=True)` gives non-empty lines whose concatenation is the text |
| Markdown.LinesAreWholeLines | app.py:24 | each piece of `splitlines` is one whole line, each piece but the last ends at a line boundary, and a piece ending in `\r` is not followed by one starting with `\n` |
| Markdown.PrefixEach | app.py:24 | every line with the prefix in front |
| Markdown.DropPrefixEach | app.py:24 | every line with the prefix taken off where it has it |
| Markdown.LineLenAfterPrefix | app.py:24 | a prefix without line breaks lengthens the first line by its own length |
| Markdown.LineLenStable | app.py:24 | the first line of `s`, when it ends before `s` does, keeps its extent whatever follows it provided that does not start with `\n`; with nothing after it, any first line keeps its extent |
| Markdown.IndentFirstLine | app.py:24 | the indented text starts with one line made of the prefix and the input's first line, followed by the indented rest |
| Markdown.LinesOfIndent | app.py:24 | the lines of the indented text are the input's lines, each with the prefix in front |
| Markdown.DropPrefixEachInverse | app.py:24 | taking the prefix off prefixed lines gives them back |
| Markdown.IndentKeepsOut | app.py:24 | indenting adds no character absent from the text and the prefix |
| Markdown.ToMarkdown | app.py:22-24 | the output of `to_markdown` has no `•`; its lines are exactly the lines of the bullet-replaced input, each with `"> "` in front; taking `"> "` off every output line gives back exactly the bullet-replaced input |
| Markdown.QuotesEveryLine | app.py:24 | every output line, blank or not, starts with `"> "`, and there are as many lines as in the bullet-replaced input |
| Handlers.GetCase | app.py:65-75 | 404 with "Case not found" exactly when `documents` is absent or empty, otherwise 200 with element 0 |
| Handlers.GetCaseFromStore | app.py:68-75 | over a store with one document per id, 404 exactly for an id that is not stored, otherwise its document |
| Handlers.SendCaseQuery | app.py:26-42 | with no saved history, the answer is "No history found." and no query is sent. With a history, the query is sent and the answer is the model's reply |

## Left out

- PDF parsing by pdfplumber is not modelled. A PDF is the list of page texts read before any failure, which is what `extract_text_from_pdf` keeps when it catches an exception.
- The model calls are not modelled: `start_chat`, `send_message` and `generate_content`. They stand behind the `Summariser` and `reply` parameters, and the prompt text built for them is not modelled.
- Pickle files are not modelled. This covers writing the chat history in `start_case_chat`, writing `case_update.pkl`, and reading a history in `load_case_chat`. The saved list is returned as the method's result instead.
- `load_case_chat`: only a missing history file (`FileNotFoundError`) is modelled; other read errors propagate in the source and are not modelled.
- Filesystem calls are inputs rather than calls: `os.path.exists`, `os.path.isdir`, `os.listdir`, `os.makedirs`.
- `process_all_cases` lists the folder once per case (inside `process_case_files`). The model assumes every listing of one run is the same, so a folder that changes during a run is not modelled. An exception raised by `process_case_files` is folded into the `Summariser` returning `None`.
- update_db.py is not part of this model. It only hands the saved records to the vector-store library.
- The Flask plumbing is not modelled: routing, `render_template`, `request.form`, `jsonify` and the `/search` query. A JSON response is one key, one value and a status.
- Logging through `print`, concurrent requests and the module-level script run are not modelled.
- Regex.Search: `\d` and `\w` are restricted to ASCII, where Python's `str` patterns also accept other Unicode digits and letters.
- Str.Upper: `.upper()` is ASCII upper-casing. This is exact for the word characters the status field can hold under the ASCII `\w`.
- Handlers.SendCaseQuery: "the answer is `No history found.` exactly when no chat loads" holds for whether the query is sent. It does not hold for the answer text, because the model could itself reply with that text.
