# class-finder in Dafny

A model of the class-finder pipeline, which finds the rooms that are empty during exams. The pipeline has four parts:

- **Section normaliser** (`sections.dfy`). `normalize_section` appears three times in the source. It keeps a master's section (leading `M`) unchanged. Otherwise it drops one leading `B` and deletes every digit run that stands directly before an upper-case letter, so `BDS-5D` becomes `DS-D`.
- **Schedule sheet** (`course_cell.dfy`, `schedule_grid.dfy`). This part reads a course cell of the exam-schedule sheet. It finds the leftmost course code. It expands bachelor's annotations (`CY(CY)-ABC,DEF` gives `CY-A`, `CY-B`, …, and any token containing `R` is dropped) and master's annotations (`MDS-3A`). Its sheet walker turns every (cell, section) pair into an entry with the column's time slot and the date carried down column 0.
- **Seating plan** (`seating_plan.dfy`). This part groups the room/course/section matches of the seating-plan text by room, without repetition, and flattens them into CSV rows. It models three variants:
  - `api/pdf_processor.py` uses a set of seen triples;
  - `pdf_processor.py` searches each room's list;
  - `pdf_Extractor.py` has a room-only pattern and compares the raw section.
- **Availability engine** (`availability.dfy`). This part inner-joins schedule rows and seating rows on (course code, section). It reads the room registry up to its `Locked:` line. For every time slot of the joined rows it lists the registry rooms that no joined row occupies, and it sorts the slots as strings.

`text.dfy` holds the character classes, `strip`, the whitespace collapse and Python's string order. `collections.dfy` holds `Option`, duplicate removal and list flattening.

Regular expressions are written as scanners or shape predicates. The seating-plan builders take the matches as a sequence of tuples. pandas frames are sequences of rows or a grid of cells.

Behaviour of the code worth noting:

- **Slot order.** The slots are sorted as plain strings (`classroom_finder.py:51`), not by clock time.
- **`normalize_section` applied twice.** Applying it twice equals applying it once only when the first result does not start with `B`. `BB5D` gives `BD`, then `D`.
- **Empty join.** When no rows join, the result has no slot at all.
- **`dept-Default`.** The `dept-Default` branch of `process_master_matches` is unreachable from a cell, because the master pattern requires at least one character after the hyphen.
- **Order of `extract_course_info`'s sections.** `list(set(...))` has no specified order. `ExtractCourseInfo` uses first-occurrence order, and its contract states only that the list is duplicate-free and which labels it holds.

## Model

| member | source | states |
|---|---|---|
| Sections.Normalize | api/pdf_processor.py:60-64 | A section starting with `M` is returned unchanged. Otherwise the result is `Kept` of the input without one leading `B`: position by position, a character is deleted exactly when it is a digit whose digit run is directly followed by an upper-case letter, and everything else is kept in order. So the result has no digit before an upper-case letter, and its non-digit characters are those of the input. |
| Sections.DropSemesters | pdf_processor.py:46 | The `re.sub(r"(\d+)([A-Z])", r"\2", s)` scan never lengthens the string and keeps a leading non-digit. |
| Sections.DropSemestersIsKept | pdf_Extractor.py:37 | The run-by-run substitution equals `Kept`, the position-by-position description of which characters survive. |
| Sections.DropSemestersLeavesNoSemester | pdf_processor.py:46 | After the `(\d+)([A-Z])` substitution, no digit stands before an upper-case letter. |
| Sections.DropSemestersDeletesOnlyDigits | pdf_Extractor.py:37 | The substitution deletes digits only; every other character is kept, in order. |
| Sections.DropSemestersKeepsClean | pdf_processor.py:46 | A string with no digit before an upper-case letter is left unchanged by the substitution. |
| Sections.NormalizeFixesClean | pdf_processor.py:39-46 | A section starting with neither `M` nor `B`, with no digit before an upper-case letter, is already normal. |
| Sections.NormalizeIdempotent | api/pdf_processor.py:60-64 | Normalising twice equals normalising once whenever the first result does not start with `B`. |
| Sections.NormalizeNotIdempotentOnDoubleB | pdf_Extractor.py:30-37 | The restriction is needed: `BB5D` normalises to `BD`, and `BD` to `D`. |
| Sections.NormalizeExamples | pdf_processor.py:38-46 | `MDS-3A` stays, `BDS-5D` becomes `DS-D`, `3A` becomes `A`. |
| Sections.NormalizeKeepsStrayDigits | pdf_Extractor.py:30-37 | Digits not followed by an upper-case letter stay: `DS-5` is unchanged, and `5A-3` becomes `A-3`. |
| CourseCell.ExtractCourseCode | excel_sheet_processor.py:16-17 | None exactly when no substring is 2-4 upper-case letters followed by 4 digits. Otherwise the result is such a code, it occurs in the cell, and it starts at the leftmost position where one starts. |
| CourseCell.FindCode | excel_sheet_processor.py:16 | The scan from `i` finds the first position holding a code, or reports that none exists. |
| CourseCell.NoEarlierCode | excel_sheet_processor.py:16 | No course code starts before the position the scan finds, and none exists anywhere when it finds none. |
| CourseCell.BachelorAt | excel_sheet_processor.py:31-34 | The pattern tried at one position: a match found there ends after it, inside the cell, and is well shaped. |
| CourseCell.BachelorHead | excel_sheet_processor.py:32-33 | A head found at `i` is a word-boundary `[A-Z]{2,4}(`, then `[A-Z]{2,4}` and `)`, at the reported positions. |
| CourseCell.BachelorAtComplete | excel_sheet_processor.py:31-34 | Whenever the pattern can match at `i` in any way (`BachelorParse`: word boundary, `[A-Z]{2,4}(`, `[A-Z]{2,4})`, the `[-\s]*` run, optional `(`, `[A-Z,]+`, optional `)`), a match is found there; for the greedy parse (`BachelorPicked`) it returns exactly that parse's groups and end. |
| CourseCell.BachelorAtSound | excel_sheet_processor.py:31-34 | A match found at `i` is the greedy parse of the pattern at `i`: its groups and end are those of some `BachelorPicked` parse. |
| CourseCell.BachelorScan | excel_sheet_processor.py:31-36 | `findall` from `i` over the table of matches at each position. Every bachelor's match found has a department of 2-4 upper-case letters and a non-empty section list of upper-case letters and commas. |
| CourseCell.BachelorScanEmpty | excel_sheet_processor.py:36 | `findall` finds nothing exactly when the pattern matches at no position from `i` on. |
| CourseCell.BachelorScanLeftmost | excel_sheet_processor.py:36 | `findall` takes the leftmost match, then resumes at its end: no position before it is skipped, and matches do not overlap. |
| CourseCell.MasterAt | excel_sheet_processor.py:50-56 | The pattern tried at one position: a match found there ends after it, inside the cell, and is well shaped. |
| CourseCell.MasterHead | excel_sheet_processor.py:51-52 | A head found at `i` is a word-boundary `M` followed by 2-4 upper-case letters, ending at the reported position. |
| CourseCell.MasterAtComplete | excel_sheet_processor.py:50-56 | Whenever the pattern can match at `i` (`MasterParse`: word boundary, `M[A-Z]{2,4}`, optional `([A-Z]{2,4})`, `-`, `[A-Z0-9]+`), a match is found there; for the greedy parse it returns exactly that parse's groups and end. |
| CourseCell.MasterAtSound | excel_sheet_processor.py:50-56 | A match found at `i` is the greedy parse of the pattern at `i`. |
| CourseCell.MasterScan | excel_sheet_processor.py:50-57 | `findall` from `i` over the table of matches at each position. Every master's match found has a department of `M` plus 2-4 upper-case letters and a non-empty section of upper-case letters and digits. |
| CourseCell.MasterScanEmpty | excel_sheet_processor.py:57 | `findall` finds nothing exactly when the pattern matches at no position from `i` on. |
| CourseCell.MasterScanLeftmost | excel_sheet_processor.py:57 | `findall` takes the leftmost match, then resumes at its end. |
| CourseCell.FindAllEmpty | excel_sheet_processor.py:36 | Over any table of matches, `findall` is empty exactly when no entry from `i` on is a match. |
| CourseCell.FindAllLeftmost | excel_sheet_processor.py:57 | Over any table of matches, `findall` is the leftmost match followed by `findall` from that match's end. |
| CourseCell.FindAllFrom | excel_sheet_processor.py:36 | Everything `findall` returns is the match of some position from `i` on. |
| CourseCell.RemoveParens | excel_sheet_processor.py:99 | The result has no parentheses, is no longer than the input, and equals it when it had none. |
| CourseCell.RemoveParensAppend | excel_sheet_processor.py:99 | The substitution works piece by piece: removing the parentheses of `a + b` gives those of `a` followed by those of `b`. Applied character by character with the contract above, exactly the parentheses are deleted and the rest is kept in order. |
| CourseCell.ProcessMasterMatches | excel_sheet_processor.py:96-106 | One label per match, in order: the department without parentheses, a hyphen, and the section (or `Default` when the section is empty). |
| CourseCell.MasterLabelsFromCell | excel_sheet_processor.py:97-105 | Every master's label of a cell is `dept-section` of a well-shaped match, so the `Default` branch is never taken for a cell. |
| CourseCell.Split | excel_sheet_processor.py:74 | `re.split(r"[,\s]+")` equals `Pieces`, the character-by-character splitter: a separator that does not follow another separator opens a new empty piece, further separators of the run do nothing, and any other character joins the current piece. So the pieces are the segments between maximal separator runs, with an empty piece before a leading run and after a trailing one; there is at least one piece, and none contains a comma or white space. |
| CourseCell.LetterSections | excel_sheet_processor.py:80-82 | The letter loop yields `dept-c` for each alphabetic character `c` of the token other than `R`, in order. |
| CourseCell.TokenSections | excel_sheet_processor.py:75-82 | The token loop strips each token, skips empty tokens and tokens containing `R`, and expands the rest letter by letter. |
| CourseCell.ProcessBachelorMatches | excel_sheet_processor.py:70-83 | The labels are the matches' expansions, concatenated in match order; a match with an empty section list adds nothing. |
| CourseCell.LetterLabelsMembers | excel_sheet_processor.py:80-82 | A label comes from a token exactly when it is `dept-c` for an alphabetic character `c` of the token other than `R`. |
| CourseCell.TokenLabelsMembers | excel_sheet_processor.py:75-82 | A label comes from a token list exactly when some non-empty stripped token without `R` yields it. |
| CourseCell.BachelorLabelsMembers | excel_sheet_processor.py:71-82 | A label is produced exactly when one of the matches produces it. |
| CourseCell.BachelorLabelsExactly | excel_sheet_processor.py:72-82 | A label is produced exactly when it is `dept-c`, where `c` is an alphabetic character of a non-empty split token without `R` of a match with non-empty sections. |
| CourseCell.BachelorLabelShape | excel_sheet_processor.py:81-82 | Every bachelor's label is `dept-c` for a single alphabetic character `c` other than `R`. |
| CourseCell.ExtractCourseInfo | excel_sheet_processor.py:120-135 | The code is `ExtractCourseCode` of the whitespace-collapsed cell. The section list has no duplicates, and as a set it is the master's labels united with the bachelor's labels. |
| CourseCell.CellSectionShape | excel_sheet_processor.py:128-133 | Every section of a cell is `dept-section` of a well-shaped master's match, or `dept-c` for one upper-case letter `c` other than `R`. |
| ScheduleGrid.HeaderSlots | excel_sheet_processor.py:148-156 | The header loop maps column `c` to its row-0 cell exactly for the columns 1.. whose row-0 cell is present. |
| ScheduleGrid.SlotsAreHeaders | excel_sheet_processor.py:152-156 | Column `c` has a slot exactly when `1 <= c < width` and its header cell is present, and the slot is that header cell. |
| ScheduleGrid.SlotOf | excel_sheet_processor.py:175-176 | A cell gets a slot exactly when its column has a header and that header is truthy. |
| ScheduleGrid.DateAt | excel_sheet_processor.py:160-168 | `current_date` after row `r`: when there is one, it is a present (non-`NaN`) column-0 value. |
| ScheduleGrid.DateIsMostRecent | excel_sheet_processor.py:160-168 | The date at row `r` is None exactly when column 0 is missing in all rows 1..r. Otherwise it is the most recent present column-0 value. |
| ScheduleGrid.AppendSections | excel_sheet_processor.py:180-188 | One entry per section, in order, all with the same date, slot and course code. |
| ScheduleGrid.CellEntriesCases | excel_sheet_processor.py:171-188 | A cell yields entries exactly when it is a string, its column has a truthy header, and it gives a course code and at least one section. It then yields one entry per section, sharing date, slot and code. |
| ScheduleGrid.CellEntryMembers | excel_sheet_processor.py:173-188 | An entry comes from a cell exactly when the cell is a string with a code, the column's slot is truthy, and the entry carries that date, slot, code and one of the sections. |
| ScheduleGrid.RowColumnsInOrder | excel_sheet_processor.py:171-188 | A row's entries list its columns in ascending order: the entries of the first `c` columns form a prefix, and what follows comes from the later columns only. |
| ScheduleGrid.RowsInOrder | excel_sheet_processor.py:163-188 | The entries list rows in ascending order: the entries of the first `n` rows form a prefix, and what follows comes from the later rows only. |
| ScheduleGrid.EntryProvenance | excel_sheet_processor.py:152-188 | An entry is extracted exactly when some string cell in a data row yields it. Its slot is that column's truthy row-0 header, its date is the most recent column-0 value above, and its section is one of the cell's sections. |
| ScheduleGrid.ScanRow | excel_sheet_processor.py:171-188 | The column loop of one row yields the row's entries, columns in order. |
| ScheduleGrid.ExtractDayTimeCourseInfo | excel_sheet_processor.py:138-190 | The sheet walk yields the rows' entries in row order, with the date carried down. It fails exactly where indexing an empty frame raises. |
| SeatingPlan.ExtractRoomsSeen | api/pdf_processor.py:76-94 | The set-of-triples loop yields the grouping: keys in first-seen order, and each room's distinct (code, normalised section) pairs in first-seen order. |
| SeatingPlan.OfferSeen | api/pdf_processor.py:80-92 | One match either is skipped (no room), or is offered to its room. The seen set keeps holding exactly the stored triples. |
| SeatingPlan.ExtractRoomsListed | pdf_processor.py:74-98 | The per-room membership loop yields the same grouping as the set-of-triples loop. |
| SeatingPlan.OfferListed | pdf_processor.py:80-96 | The room is `room_no`, else `lab_name`, else the match is skipped. A new room is created at the end of the order, and a pair not yet in the room's list is appended. |
| SeatingPlan.InsertEffect | pdf_processor.py:91-96 | One offer to a room: the room gets a key, appended to the order when new; its list then holds the allocation and gains at most that entry, at its end; an allocation already held changes nothing; every other room is untouched. |
| SeatingPlan.GroupedShape | api/pdf_processor.py:81-92 | The keys are the rooms of the matches that are not skipped, each listed once; a skipped match creates no key. Every list is non-empty and duplicate-free. |
| SeatingPlan.GroupedStores | api/pdf_processor.py:85-92 | A (room, code, section) triple is stored exactly when some match that is not skipped yields it, so every non-skipped triple appears and every stored section is a `normalize_section` output. |
| SeatingPlan.GroupedFirstSeen | pdf_processor.py:91-96 | Each room's pairs keep the order in which matches first yield them. |
| SeatingPlan.ExtractRoomNumbers | pdf_Extractor.py:63-74 | The room-only loop as written: every match creates its room's key, and the normalised pair is appended unless the raw pair is present. |
| SeatingPlan.OfferRaw | pdf_Extractor.py:66-72 | One step of that loop. |
| SeatingPlan.ExtractorStepEffect | pdf_Extractor.py:67-72 | One match of the as-written loop: the room gets a key, appended to the order when new; the list gains the normalised allocation at its end exactly when it does not hold the raw one; every other room is untouched. |
| SeatingPlan.ExtractorKeys | pdf_Extractor.py:67-68 | Every match creates its room's key, so the keys are the distinct rooms of all matches, in first-seen order. |
| SeatingPlan.ExtractorStoresNormalized | pdf_Extractor.py:70-72 | Every stored pair is the code and the normalised section of a match naming that room. |
| SeatingPlan.ExtractorTotal | pdf_Extractor.py:64-72 | No more pairs are stored than there are matches. |
| SeatingPlan.ExtractorAgreesWhenFixed | pdf_Extractor.py:69-72 | When normalisation leaves every matched section unchanged, the result is the duplicate-free grouping. |
| SeatingPlan.ExtractorRepeatsNormalized | pdf_Extractor.py:69 | Two identical matches `CS2001 BDS-5D` in `C-301` leave `DS-D` twice in that room's list. |
| SeatingPlan.ExtractRoomNumbersIntended | pdf_Extractor.py:65-72 | With the repetition check on the normalised section, the room-only loop yields the duplicate-free grouping. |
| SeatingPlan.OfferNormalized | pdf_Extractor.py:67-72 | One step of the corrected loop: create the room if new, then append the normalised pair if absent. |
| SeatingPlan.CsvRowCount | pdf_processor.py:111-114 | The CSV has one header row plus one row per stored pair. |
| SeatingPlan.CsvRowMembers | api/pdf_processor.py:107-113 | A data row `[room, code, section]` is written exactly for each pair stored under that room. |
| SeatingPlan.WriteRows | pdf_Extractor.py:87-90 | The row loop writes the header, then the rooms in dictionary order, each room's pairs in order, matching the rows built by the list comprehension. |
| SeatingPlan.WriteRoomRows | pdf_processor.py:113-114 | One row per pair of the room, in order. |
| Availability.JoinMembers | classroom_finder.py:22 | A merged row is a schedule row merged with a seating row of equal course code and section, and every such pair is merged. |
| Availability.JoinEmpty | api/classroom_finder.py:11 | With no pair agreeing on (course code, section), nothing is merged. |
| Availability.LockIndex | classroom_finder.py:27-29 | The index of the first line containing `Locked:`, or the number of lines when there is none. |
| Availability.ReadLines | classroom_finder.py:25-30 | The reading loop yields the stripped lines before the first `Locked:` line, in order. |
| Availability.NonBlank | classroom_finder.py:33 | The comprehension `[c.strip() for c in ls if c != '']` never lengthens the list. |
| Availability.Registry | classroom_finder.py:25-33 | The registry has no more rooms than there are lines before the first `Locked:` line. |
| Availability.ReadRegistry | api/classroom_finder.py:17-25 | The registry is the stripped lines before the first `Locked:` line, with blank ones dropped. |
| Availability.RegistryMembers | classroom_finder.py:25-33 | A registry room is the stripped text of a non-blank line before the first `Locked:` line, and every such line gives one. |
| Availability.OccupiedMembers | classroom_finder.py:36-46 | A room is occupied in a slot exactly when some merged row puts it in that slot. |
| Availability.EmptyIn | classroom_finder.py:47 | Each listed room is a registry room that is not occupied, and the list is no longer than the registry. |
| Availability.EmptyInMembers | classroom_finder.py:47 | A room is listed exactly when it is a registry room and not occupied; occupied rooms missing from the registry never appear. |
| Availability.EmptyInKeepsOrder | api/classroom_finder.py:42 | Each slot's list is the registry, in order, with some rooms deleted. |
| Availability.FillSlots | classroom_finder.py:45-48 | The slot loop gives every unique slot, and only those, its list of empty rooms. |
| Availability.SortStrings | classroom_finder.py:51 | `sorted` yields a permutation of its input in non-decreasing string order. |
| Availability.SortStrictly | api/classroom_finder.py:46 | Sorting distinct slot names orders them strictly. |
| Availability.FindEmptyClassrooms | classroom_finder.py:3-53 | The whole engine: join, registry, unique slots, per-slot empty rooms, sorted keys. |
| Availability.ExpectedSlots | classroom_finder.py:42-51 | The keys are exactly the slots of the merged rows, each once, in strictly increasing string order; a slot without merged rows has no key. |
| Availability.ExpectedRooms | api/classroom_finder.py:37-43 | A room is listed for a slot exactly when it is a registry room that no merged row of that slot occupies, and the list keeps registry order. |
| Availability.NoMatchNoSlots | classroom_finder.py:22-51 | When no rows join, the result has no slot. |
| Text.Strip | classroom_finder.py:30 | The result is a contiguous slice of the input with only white space before and after it, and it neither starts nor ends with white space; so it is the slice from the first to the last non-white-space character. It keeps every non-white-space character in order. |
| Text.StripIdempotent | classroom_finder.py:33 | Stripping a stripped line changes nothing, so the second `strip` of the registry is a no-op. |
| Text.CollapseSpaces | excel_sheet_processor.py:120-121 | The run-by-run substitution equals `Squash`, the character-by-character description: a white-space character that does not follow white space becomes one space, further white space of the run vanishes, and every other character is kept. The result is never longer than the input and starts with a space exactly when the input starts with white space. |
| Text.CollapseSpacesSingle | excel_sheet_processor.py:120-121 | After the substitution the only white-space character left is the plain space, and no two spaces are adjacent. |
| Text.CollapseSpacesKeepsText | excel_sheet_processor.py:120-121 | The substitution keeps every non-white-space character, in order. |
| Text.LexTransitive | classroom_finder.py:51 | Python's string order is transitive. |
| Text.LexTotal | api/classroom_finder.py:46 | Any two different strings are ordered one way or the other. |
| Text.LexAsymmetric | classroom_finder.py:51 | No two strings are each below the other. |
| Collections.Dedup | excel_sheet_processor.py:133 | Duplicate removal gives a duplicate-free list with the same elements. |
| Collections.DedupKeepsFirstSeenOrder | classroom_finder.py:42 | `unique()` keeps first-occurrence order: `x` precedes `y` in the result exactly when the first `x` precedes the first `y`. |
| Collections.FlattenInOrder | excel_sheet_processor.py:163-171 | Concatenating lists keeps them in order: a prefix of the lists gives a prefix of the result. |

## Left out

- Reading PDFs (PyPDF2, the `pdftotext` subprocess), Excel and CSV files, writing CSV files, the Flask routes in `app.py` and `api/app.py`, `compiler.py`, `process_exam_schedule`, `process_pdf_to_csv`, the `__main__` blocks, and the lab/classroom print split. These are I/O. The model takes the text's matches, the sheet's cells, the tables' rows and the registry file's lines as values.
- The seating-plan pattern `ROOM_COURSE_PATTERN` and its `re.IGNORECASE`. The builders take the sequence of its matches as (course code, section, room number, lab name) tuples, with an empty string for a group that did not take part.
- `api/classroom_finder.py` writes the merged table to a file and reads it back. The model treats that round trip as the identity, so both `find_empty_classrooms` copies are `Availability.FindEmptyClassrooms`. pandas type inference on read-back, and `NaN` keys in the merge, are not modelled.
- `drop_duplicates` on the (room, slot) pairs is modelled as first-occurrence duplicate removal. Only which rooms are occupied is stated.
- `Availability.Join`'s row order follows the schedule rows, then the seating rows. pandas' merge order is not claimed; the contracts speak of membership only.
- `Collections.Dedup` gives `list(set(...))` at `excel_sheet_processor.py:133` first-occurrence order. Python's order is unspecified, so no contract states an order for `ExtractCourseInfo`'s sections.
- Character classes are ASCII. Python's `\d`, `\w` and `isalpha()` also accept other Unicode digits and letters; `strip()` and `\s` use Python's white-space set.
- ScheduleGrid works on a `parse` function parameter so that the sheet lemmas need not unfold the cell parser. The methods use `CourseCell.ExtractCourseInfo`. A cell that is not a string is `Other` with its Python truthiness. pandas' time and number values are not modelled further.
- CourseCell.RemoveParens: its own contract does not fix the order of the kept characters; RemoveParensAppend, applied character by character, does.
- Availability.Registry: its own contract gives the length bound only; RegistryMembers and ReadRegistry state its contents, kept apart so that the proofs using the function stay small.
- Availability.NonBlank: its own contract gives the length bound only; RegistryMembers and ReadRegistry state what it keeps.
- Availability.EmptyIn: its own contract gives the bound and soundness only; EmptyInMembers and EmptyInKeepsOrder state exactly which rooms are listed, in registry order.
- Sections.DropSemesters: its own contract gives bounds only; DropSemestersIsKept states the value of the substitution.
- CourseCell.BachelorHead: its own contract says only that a head it finds is well shaped; BachelorHeadComplete states that every word-boundary head is found.
- CourseCell.MasterHead: its own contract says only that a head it finds is well shaped; MasterAtHead states that every word-boundary `M` head is found.
- ScheduleGrid.DateAt: its own contract says only that a date is a present value; DateIsMostRecent states which one.
- CourseCell.BachelorAt: its own contract gives shape and bounds; BachelorAtComplete and BachelorAtSound tie it to the pattern.
- CourseCell.MasterAt: its own contract gives shape and bounds; MasterAtComplete and MasterAtSound tie it to the pattern.
- Availability.Join has no contract of its own; JoinMembers and JoinEmpty state what it merges.
- SeatingPlan.ExtractRoomNumbersIntended: requires every match to name a non-empty room. The room-number pattern `[\w\d\-]+` guarantees this, and a room named by the empty string would otherwise create a key that the room-or-lab grouping skips.
- SeatingPlan.ExtractorAgreesWhenFixed: requires non-empty rooms, for the same reason.

## Findings

| source | as written | input that shows it | evidently intended | confidence | as-written member | corrected member |
|---|---|---|---|---|---|---|
| pdf_Extractor.py:69-72 | The repetition check looks for `[course_code, section]` with the raw section, but the list stores `normalize_section(section)`. | The match `CS2001` / `BDS-5D` / `C-301` found twice stores `["CS2001", "DS-D"]` twice under `C-301`. | Compare the normalised section, as `pdf_processor.py:95` does, so that each room's list is duplicate-free. | not executed | SeatingPlan.ExtractorRepeatsNormalized | SeatingPlan.ExtractRoomNumbersIntended |
