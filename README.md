# Qualtrics staff sync — verified model of its decision logic

This Dafny project models the decision and data-shaping core of
`qualtricsStaffInfo.py`. That script mirrors a personnel (Active Directory)
export into a Qualtrics contact directory. The model covers:

- the export readers' row slicing (`Source`);
- `split`, the partitioner that hands contiguous slices to worker threads
  (`Partition`);
- the JSON bodies of the create and update calls (`Payloads`);
- `formatContact`'s normalisation of a fetched contact, the
  update/delete/no-op decision of `compareContactToAD`, and the create
  decision of `checkNewStaff` (`Reconcile`);
- `getAllContacts`' page accumulation, `getContact`'s existence check, and
  `createContact`'s retry loop with the shared `totalImported` counter
  (`Directory`).

The remote directory is replaced by scripted replies. A reply is a status
envelope (of which only the first three characters count, and only "200" is
success), plus the data the program reads from it. Values are modelled as the
Python values the program handles: `None`, strings and integers (`Values.Value`).
Python's mixed-type `!=` and `str()` are modelled exactly: `Int(5)` never
equals `Text("5")`, and `str(None)` is "None".

Behaviours of the code that the model keeps as written:

- The scan in `compareContactToAD` does not stop after issuing an update. It
  returns only at a matching row whose seven fields are all equal. So rows
  that share an employee id give several updates, and the pass is then not
  idempotent (`Reconcile.DuplicateExtRefNotIdempotent`).
- A contact whose external reference is blank (JSON `null` normalised to "")
  is deleted whenever every export row has an employee id
  (`Reconcile.BlankExtRefDeleted`). The code's blank-id rule (the comment
  above the id test in `createContact`) covers only creation.
- `getContact` returns `None` whenever its first search fails, even when the
  retried search finds the contact. A create that timed out (504) is then
  sent again (`Directory.DiscardedCheckCreatesAgain`).
- `readADExport` drops three leading columns from row 2 on. `readADExportCSV`
  drops only two leading columns and then the header row, so the same export
  saved in the two formats gives rows shifted by one column.
  `Source.ReadersAgree` states when the two give the same rows.
- `getAllContacts` checks only the first page's status. Later pages are
  accumulated whatever their status.

## Model

| member | source | states |
|---|---|---|
| `Values.Str` | qualtricsStaffInfo.py:284 | `str()` of a value is "" exactly for the empty string (so `None` and every integer are non-blank ids) |
| `Values.OrEmpty` | qualtricsStaffInfo.py:195 | the blank rule: the result is never `None`; `str()` of the result is "" exactly when the value was `None` or ""; any other value converts to the same text as before |
| `Values.StatusCode` | qualtricsStaffInfo.py:304 | the status code is the envelope's first three characters (all of it when shorter): a prefix of the envelope |
| `Values.OkIffStartsWith200` | qualtricsStaffInfo.py:265 | a reply counts as success exactly when its envelope starts with "200" |
| `Source.ReadADExport` | qualtricsStaffInfo.py:437-441 | one output row per sheet row after the header; cell j of row i is sheet cell (i+1, j+3), with `None` read as "" |
| `Source.ReadADExportCSV` | qualtricsStaffInfo.py:443-447 | one output row per line after the first; cell j of row i is cell (i+1, j+2), with `None` read as "" |
| `Source.ReadersAgree` | qualtricsStaffInfo.py:440-447 | the two readers give identical rows when the delimited file is the sheet without its first column |
| `Source.CSVRowsAreText` | qualtricsStaffInfo.py:444-447 | rows read from a file of strings hold only strings |
| `Partition.Split` | qualtricsStaffInfo.py:449-451 | `split(a, n)` yields exactly `n` slices |
| `Partition.SplitSize` | qualtricsStaffInfo.py:450-451 | with `k, m = divmod(len(a), n)`, slice i has `k+1` items when `i < m` and `k` otherwise |
| `Partition.SplitBalanced` | qualtricsStaffInfo.py:449-451 | any two slice sizes differ by at most one |
| `Partition.SplitAt` | qualtricsStaffInfo.py:451 | item t of slice i is item `i*k + min(i, m) + t` of the list |
| `Partition.SplitCovers` | qualtricsStaffInfo.py:449-451 | the slices joined in order give back the list: nothing dropped, duplicated or reordered |
| `Partition.SplitSeventeenIntoThree` | qualtricsStaffInfo.py:449-451 | 17 items into 3 slices gives sizes 6, 6, 5 |
| `Payloads.CreatePayload` | qualtricsStaffInfo.py:285-297 | the contact is created under `str(staffDetails[7])`, the key the reconciliation compares, which is blank only for an empty-string id; a row of strings is sent unchanged, columns 2, 1, 4, 6, 7, 5, 3, 0 as firstName, lastName, email, phone, extRef, Title, Site, Description |
| `Payloads.UpdatePayload` | qualtricsStaffInfo.py:336-348 | the extRef sent is blank only for an empty-string position 4; a details list of strings is sent exactly as it is, positions 0 to 7 in order |
| `Reconcile.FormatContact` | qualtricsStaffInfo.py:182-195 | afterwards the embedded map has Title, Site and Description; missing ones are ""; existing entries and other keys are unchanged; a `None` top-level value becomes "" |
| `Reconcile.CompareContactToAD` | qualtricsStaffInfo.py:201-236 | the loop with its `found` flag and early return issues exactly the scan's updates followed by a delete when no row matched |
| `Reconcile.OrphanDeleted` | qualtricsStaffInfo.py:211-235 | when no row's `str(row[7])` equals the contact's extRef, exactly one delete and no update |
| `Reconcile.DeleteIffOrphan` | qualtricsStaffInfo.py:211-235 | a delete is issued if and only if no row matches |
| `Reconcile.StopsAtFirstEqualRow` | qualtricsStaffInfo.py:213-232 | with a first matching row j whose seven fields are all equal: one update per matching row before j, carrying `[row[2], row[1], row[4], row[6], str(row[7]), row[5], row[3], row[0]]`, then nothing |
| `Reconcile.UpdatesEveryMatch` | qualtricsStaffInfo.py:213-227 | with matches but no equal one: one update per matching row, in order, and no delete |
| `Reconcile.BlankExtRefDeleted` | qualtricsStaffInfo.py:206-235 | a contact with blank extRef is deleted when every row has an employee id |
| `Reconcile.SingleRowOutcomes` | qualtricsStaffInfo.py:213-232 | one equal row gives no action; the same row with the phone changed gives exactly one update carrying the whole row |
| `Reconcile.UpdateSendsCreateFields` | qualtricsStaffInfo.py:336-344 | the update body built from a row's new details equals the create body built from that row |
| `Reconcile.SecondPassNoOp` | qualtricsStaffInfo.py:213-232 | with a unique matching row of strings, the first pass issues at most that row's update, and the second pass over what the directory then holds issues nothing |
| `Reconcile.DuplicateExtRefNotIdempotent` | qualtricsStaffInfo.py:213-227 | two rows sharing an id give two updates, and the next pass updates the contact again |
| `Reconcile.CheckNewStaff` | qualtricsStaffInfo.py:148-160 | the loop issues one create per qualifying row, in row order |
| `Reconcile.NewStaffExactly` | qualtricsStaffInfo.py:149-159 | details are created if and only if they come from a row whose `str(row[7])` is non-empty and not among the directory's extRefs |
| `Reconcile.StaffDetailsLayout` | qualtricsStaffInfo.py:152-159 | the created details are the row's first seven cells in order, then `str(row[7])`, and yield the same create body as the row |
| `Reconcile.PassBOverSplit` | qualtricsStaffInfo.py:130-137 | running checkNewStaff over the `n` slices of `split(adList, n)` (16 in the program) one after another issues the same creates, in the same order, as one run over the whole list |
| `Directory.GetAllContacts` | qualtricsStaffInfo.py:253-276 | a first page that is not "200" gives two empty lists; otherwise the contact ids and extRefs of the elements of every visited page, in page order |
| `Directory.ListingAligned` | qualtricsStaffInfo.py:267-270 | the two lists have equal length and index k of both comes from the same listed contact |
| `Directory.ListedChain` | qualtricsStaffInfo.py:266-275 | when the pages link up to a page with no next link, the listing is all their elements, in page order |
| `Directory.GetContact` | qualtricsStaffInfo.py:399-432 | the call returns a boolean exactly when its first search succeeds, and that boolean is whether the search found a contact; a call that never returns saw only failed searches |
| `Directory.GetContactTruthy` | qualtricsStaffInfo.py:418-432 | the existence check is truthy if and only if its first search succeeds and finds a contact |
| `Directory.GetContactReturns` | qualtricsStaffInfo.py:418-424 | the existence check returns if and only if some search succeeds |
| `Directory.RetriedSearchDiscarded` | qualtricsStaffInfo.py:419-424 | a failed search followed by one that finds the contact gives `None` |
| `Directory.CreateRun` | qualtricsStaffInfo.py:304-324 | a run of create attempts never takes the no-request path; how it ends is stated by `Directory.RunEndsAtFirstStop`, `Directory.RunExhausted`, `Directory.ImportedIff` and `Directory.AlreadyExistsIff` |
| `Directory.CreateOutcomeOf` | qualtricsStaffInfo.py:284-329 | the no-request path is taken if and only if the employee id is the empty string: `None` and numeric ids are sent |
| `Directory.RunEndsAtFirstStop` | qualtricsStaffInfo.py:304-324 | the create run ends at the first reply that does not retry: "200" is counted, "504" with a truthy check is not, "504" with a hanging check never ends |
| `Directory.RunExhausted` | qualtricsStaffInfo.py:306-318 | when every reply retries, the run has not finished |
| `Directory.ImportedIff` | qualtricsStaffInfo.py:306-324 | a run is counted if and only if some reply is "200" and every earlier reply retries |
| `Directory.AlreadyExistsIff` | qualtricsStaffInfo.py:306-316 | a run ends uncounted with the contact present if and only if some reply is a "504" whose check finds the contact and every earlier reply retries |
| `Directory.NewStaffNeverSkipped` | qualtricsStaffInfo.py:151 | details issued by checkNewStaff never take the no-request path |
| `Directory.TimeoutFoundNotCounted` | qualtricsStaffInfo.py:309-312 | a 504 followed by a check that finds the contact ends the run without counting |
| `Directory.DiscardedCheckCreatesAgain` | qualtricsStaffInfo.py:309-315 | a 504 whose first search fails while the retry finds the contact leads to another create, which a "200" counts |
| `Directory.CountAllImported` | qualtricsStaffInfo.py:320-321 | when each of N records is imported, the count is N |
| `Directory.Importer.constructor` | qualtricsStaffInfo.py:70 | the counter starts at 0 |
| `Directory.Importer.CreateContact` | qualtricsStaffInfo.py:279-329 | the retry loop ends as the create run does, and the counter rises by exactly one when it ends on "200", by nothing otherwise |
| `Directory.Importer.LoopThroughChunk` | qualtricsStaffInfo.py:101-103 | one create per record of the chunk, in order, each as `CreateOutcomeOf` says; a record whose create never ends is the last one reached, so the records after it are never sent; when no create is unfinished every record is handled; the counter rises by the number of counted outcomes |
| `Directory.StuckRecordBlocksChunk` | qualtricsStaffInfo.py:101-103 | a first record whose create keeps failing stops the chunk: the second record is never sent and the counter stays at 0 |
| `Directory.TwoFailuresThenSuccess` | qualtricsStaffInfo.py:306-324 | two failures followed by a success leave the counter at exactly 1 |

## Left out

- HTTP, JSON and authentication: every `requests` call, the URL and header building, and `getQualtricsBearer`. Replies are scripted values instead: `Page`, `Search` and `CreateReply`.
- Threading and the `screenlock` semaphore: workers are distributed with `split`, and chunks are processed one after another (`Partition`, `Reconcile.PassBOverSplit`, `Directory.Importer.LoopThroughChunk`). Interleavings are not modelled.
- The log file, every `print`, and `time.sleep`: these are output and timing only.
- The "Last Modified" stamp and the elapsed-minutes report: these depend on the clock and use floats. `Payloads.Payload` leaves the stamp out.
- Opening the workbook or delimited file: the readers receive the file's rows as values. Floats, dates and booleans in spreadsheet cells are not modelled; cells are `None`, strings or integers.
- Rows with fewer than eight cells: the code raises IndexError on them. The model requires staff rows (`Source.StaffRows`) instead of modelling the exception.
- Retries of `formatContact`, `updateContact` and `deleteContact`: these retry without bound on network failure. Only the decision to update or delete is modelled. The status test after a failed delete reads `responseCode`, which `deleteContact` never assigns, so every failed delete raises NameError: its 504 handling and generic retry are never reached, and the rest of that worker's chunk of contacts is abandoned. The model's `Delete` action does not capture that failure.
- `getContactFromID` and the pass-A worker loop: fetching each contact is a network call. `Reconcile.FormatContact` and `Reconcile.CompareContactToAD` model one contact.
- `importADStaff` and `updateADStaff`: these only wire the pieces and threads together; `run()` is an entry point.
- Recursion depth: every retry of `createContact` and `getContact` is a nested call. A long enough run of failures exceeds Python's recursion limit (about 1000 frames), raises RecursionError, ends that worker thread and leaves the record uncounted. `Directory.CreateRun`, `Directory.GetContact` and `Directory.Importer.CreateContact` retry with no depth bound.
- Scripted replies that run out: the code would go on retrying or fetching. The model stops there and reports `Unfinished` or `Hangs`, and `Directory.Importer.LoopThroughChunk` then sends no later record of the chunk, as the code never returns to it; a listing stops at the last scripted page.
- `Reconcile.SecondPassNoOp`: it assumes that, after an update, the directory returns exactly the sent fields on the next fetch (`Reconcile.Refetched`). That is a property of the remote service, not of the code.
