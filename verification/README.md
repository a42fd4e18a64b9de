# Equipment checkout plugin: bulk families, VCC submissions, repeating fieldsets, agreement dates

A Dafny model of the decision logic of a Moodle local plugin that manages
equipment checkout for partnership schools. It covers four parts of the plugin.

- **Bulk family upload** (`addbulkfamilies.php`), module `BulkFamilies`. For each family:
  - each parent is resolved by email, either found or created;
  - a *sibling cache* is built. It is the key union, by user id, of the students already linked to those parents;
  - each student is resolved by email, then by a case-insensitive first- and last-name match in the sibling cache, and is created only when neither matches;
  - each student is enrolled in its own courses ("no courses" error for an empty list) and linked to every parent;
  - the parents are enrolled in the de-duplicated union of the children's courses;
  - the family's success, warning and error messages are reduced to one status, and a family name is chosen;
  - a family with no users throws. The catch is outside the family loop, so this ends the whole upload.

  Which account each parent and student resolves to is also given as a pure fold, `ResolveAll`, over the family's lookups (the stored account of the email, else the sibling found by name, else a new account). The methods are proved to compute it, and its properties are proved as lemmas: stored accounts are kept and win, and no email gets two new accounts.

  After the families, the plugin's own user table (the *shadow profile* table) is upserted once per processed account. Then the merge helper is called for every user id that has more than one row. The state the page changes is the class `BulkUpload`: the user table, keyed by email, and logs of the enrolments, role links, notifications and merge calls.
- **VCC submission list** (`vccsubmissions.php`), module `VccSubmissions`. It covers:
  - the guarded delete action and the default ordering;
  - the loop that builds one 17-cell row per submission. The mailing address comes from the first address row of the submission's user. The pickup name is the first `#...#` of the pickup instructions. The pickup location cell carries over from earlier rows when a submission has no pickup street address.
- **Repeating fieldsets** (`amd/src/formhandling.js`), module `FormHandling`. It covers:
  - renumbering after a fieldset is removed. A class holds the fieldsets in an array. It rewrites the first `[digits]` of each element name and the first `_digits_` of each id to the fieldset's index, relabels the headings, sets the hidden count and the remove-button visibility;
  - appending the record id to the page URL;
  - reading a fieldset's index back from its id, and the fallback header text.
- **Agreement form validation** (`classes/form/editagreement_form.php`), module `AgreementForm`: the `enddate` error for dates out of order.

Module `Text` holds the string semantics the pages rely on:
- PHP truthiness, `trim` and `strcasecmp`;
- decimal numerals;
- the white space JavaScript's `parseInt` skips.

## Model

| member | source | states |
|---|---|---|
| AgreementForm.Validation | classes/form/editagreement_form.php:77-85 | dates with start >= end (equal dates included) give an `enddate` error with the custom message, overwriting any `enddate` error from the parent. Dates in order return the parent's errors unchanged. No key other than `enddate` is added, removed or changed |
| AgreementForm.DateErrorIffOutOfOrder | classes/form/editagreement_form.php:80-82 | when the parent did not already report the custom message, the `enddate` error is present iff start >= end |
| AgreementForm.ValidationIdempotent | classes/form/editagreement_form.php:78-84 | validating the result again with the same dates changes nothing |
| Text.TrimIsInfix | vccsubmissions.php:179 | `trim` returns the infix of its argument left after removing a prefix and a suffix made only of PHP's default trim characters |
| Text.Trim | vccsubmissions.php:179 | the trimmed string neither starts nor ends with a trim character |
| Text.EqualsIgnoreCaseMeans | addbulkfamilies.php:193 | `strcasecmp(a, b) === 0` holds iff the strings have equal length and agree letter by letter up to ASCII case. It is symmetric and reflexive |
| VccSubmissions.DeleteSubmission | vccsubmissions.php:42-47 | a non-zero `delete` with a confirmed session key removes exactly the row with that id. Otherwise the table is unchanged. Remaining rows are untouched |
| VccSubmissions.SortClause | vccsubmissions.php:125-129 | the table's sort is used when it is non-empty. Otherwise the order is `vccsubmission.timecreated DESC` |
| VccSubmissions.FormatMailingAddress | vccsubmissions.php:154-158 | the mailing address starts with the street address and ends with a space and the zip code |
| VccSubmissions.ApartmentIsInsertedAfterStreet | vccsubmissions.php:154-158 | a truthy apartment inserts `, Apt <apartment>` right after the street of `street, city, state zip`. The apartments `""` and `"0"` both give the plain address |
| Text.FirstIndex | vccsubmissions.php:152-153 | returns the index of the first element that satisfies the predicate, and nothing before it does. None means no element does. The first address row of a user (`FirstRowOf`) and the shadow row `get_record` returns (`FirstRowOfUser`, addbulkfamilies.php:373) are both this search |
| VccSubmissions.LookupMailingAddress | vccsubmissions.php:148-166 | the scan with its `$break` flag returns the formatted address and instructions of the first row of that user. With no such row both stay `""` |
| VccSubmissions.FirstHashPair | vccsubmissions.php:174-177 | returns the leftmost position where `#(.*?)#` matches (a `#`, then the nearest `#` with no line feed between them). Nothing before it matches |
| VccSubmissions.MarkerIsFirstPair | vccsubmissions.php:174-177 | in `before#name#after`, with no `#` in `before` and neither `#` nor a line feed in `name`, the first match is the marker around `name` |
| VccSubmissions.PickupName | vccsubmissions.php:174-180 | the pickup name is the pickup city, or the text of a `#...#` marker, which holds neither `#` nor a line feed |
| VccSubmissions.PickupNameRule | vccsubmissions.php:174-180 | for every instructions text: when it is empty (PHP `empty`) or holds no lazy `#(.*?)#` match (so also text such as `Door #3`, whose `#` opens no match), the name is the pickup city and the instructions are kept; otherwise, for the leftmost match at `i` ending at the next `#` `j`, the name is `s[i+1..j]` and the instructions are `trim(s[..i] + s[j+1..])` |
| VccSubmissions.PickupNameOfMarkedText | vccsubmissions.php:175-180 | such instructions give the pickup name `name` and the instructions `trim(before + after)`. Only the first match is removed |
| VccSubmissions.PickupNameWithoutMarker | vccsubmissions.php:175-177 | instructions without `#` leave the pickup name at the pickup city and the instructions unchanged |
| VccSubmissions.PickupCellIsLastWithStreet | vccsubmissions.php:145-190 | the carried pickup cell (`PickupCellAfter`) after some submissions is the location of the last one with a truthy pickup street address. With none it is the "contact us for pickup" text |
| VccSubmissions.PickupCellStep | vccsubmissions.php:188-190 | one submission changes the carried pickup cell only when its street address is truthy |
| VccSubmissions.UpdatePickupCell | vccsubmissions.php:174-190 | the iteration's pickup step gives the submission's pickup location when its street address is truthy. Otherwise it keeps the current cell |
| VccSubmissions.Row | vccsubmissions.php:194-216 | a row has exactly as many cells as there are columns (17), and the `actions` cell is `""` |
| VccSubmissions.RowFollowsColumns | vccsubmissions.php:199-216 | cell k of a row is the value that column k names, in column order |
| VccSubmissions.BuildRows | vccsubmissions.php:145-219 | one row per submission, in query order. Row k holds the mailing cells of the submission's user and the pickup cell carried after submissions 0..k |
| FormHandling.FirstMatch | amd/src/formhandling.js:107-112 | returns the leftmost position where `open \d+ close` matches. Nothing before it matches, and None means no position matches |
| FormHandling.ReplaceFirstNumberKeepsContext | amd/src/formhandling.js:107-112 | the rewrite `ReplaceFirstNumber` (used as `RenameField` with `[` `]` and as `RenameId` with `_` `_`) keeps the text before and after the first match and swaps only its digits for the numeral of the index. A string without a match is unchanged |
| FormHandling.NumberAfterReplace | amd/src/formhandling.js:107-112 | after the rewrite the first match is at the same place and reads back as the index. A string without a match still has none |
| FormHandling.ReplaceFirstNumberIdempotent | amd/src/formhandling.js:107-112 | rewriting twice with the same index is the same as rewriting once |
| FormHandling.RenumberFieldsetNumbersAs | amd/src/formhandling.js:104-115 | after renumbering a fieldset with index i, every element name and id that carries a number carries i |
| FormHandling.Renumbered | amd/src/formhandling.js:64-116 | renumbering keeps the fieldsets, their ids and their element counts, and fieldset i gets the heading i + 1 |
| FormHandling.RenumberedIsConsistent | amd/src/formhandling.js:64-117 | after renumbering, fieldset i is labelled i + 1 and all its elements carry index i, whatever numbers they held before |
| FormHandling.RenumberedIdempotent | amd/src/formhandling.js:101-116 | renumbering a renumbered page changes nothing |
| FormHandling.RepeatingFieldsets.constructor | amd/src/formhandling.js:40-57 | the initial fieldsets are kept, and the remove buttons are shown iff there is more than one |
| FormHandling.RepeatingFieldsets.UpdateFieldsetNumbers | amd/src/formhandling.js:64-75 | heading i shows i + 1. Nothing else changes |
| FormHandling.RepeatingFieldsets.RenumberFormElements | amd/src/formhandling.js:100-117 | every element of fieldset i gets index i in its name and its id. Fieldset ids and headings are untouched |
| FormHandling.RepeatingFieldsets.UpdateHiddenFields | amd/src/formhandling.js:83-93 | the hidden input named `name + 's'` (plural) or `name` gets the fieldset count, if the form has it. `repeatno` gets the same count |
| FormHandling.RepeatingFieldsets.UpdateTrashIcons | amd/src/formhandling.js:124-131 | the remove buttons are shown iff there is more than one fieldset |
| FormHandling.RepeatingFieldsets.RemoveFieldset | amd/src/formhandling.js:47-54 | removing fieldset k leaves the others in order, renumbered and consistent, one fewer. The plural hidden count and `repeatno` equal the new count, and the buttons follow it |
| FormHandling.HiddenInputName | amd/src/formhandling.js:84 | the plural name is the name followed by exactly one character (`s`) |
| FormHandling.UrlWithId | amd/src/formhandling.js:304-309 | a URL is pushed iff the query has no `id` parameter. It is the href, then `&` if the href contains `?` (else `?`), then `id=<id>` |
| FormHandling.UrlWithIdHasOneQueryMark | amd/src/formhandling.js:306-307 | an href with at most one `?` has exactly one after the id is appended |
| FormHandling.LastSegment | amd/src/formhandling.js:161 | `split('_').pop()` is the suffix after the last `_` (all of the string if there is none), and it contains no `_` |
| FormHandling.ParseIntDecimal | amd/src/formhandling.js:161 | `parseInt` yields a number only when the string contains a digit |
| FormHandling.LastSegmentOfSuffix | amd/src/formhandling.js:161 | the last segment of `prefix_tail` is `tail` when `tail` has no `_` |
| FormHandling.ParseNumeral | amd/src/formhandling.js:161 | `parseInt` reads a decimal numeral back as its number |
| FormHandling.FieldsetIndex | amd/src/formhandling.js:161 | `parseInt(id.split('_').pop(), 10)` yields a number only when the id has a digit after its last `_` |
| FormHandling.FallbackHeader | amd/src/formhandling.js:184 | the fallback header text always starts with `Student ` |
| FormHandling.FieldsetIndexRoundTrip | amd/src/formhandling.js:161-184 | a fieldset id ending in `_n` gives index n. Its fallback header is the 1-based `Student n+1` |
| BulkFamilies.StatusOf | addbulkfamilies.php:336-342 | the status is error iff there is an error message. It is warning iff there is no error but some warning, and success iff there is neither |
| BulkFamilies.StatusOfThen | addbulkfamilies.php:336-342 | appending messages gives the worse of the two statuses, so a later step never lowers the status |
| BulkFamilies.Lookup | addbulkfamilies.php:137 | a keyed array holds an entry for an id iff the id is among its users |
| BulkFamilies.KeyUnion | addbulkfamilies.php:137 | PHP array `+` keeps the left operand as a prefix |
| BulkFamilies.KeyUnionIds | addbulkfamilies.php:137 | the ids of the key union are the ids of both operands |
| BulkFamilies.KeyUnionFirstWins | addbulkfamilies.php:137 | for every id, the key union holds the first entry of `a` followed by `b`. On a duplicate id the earlier entry wins |
| BulkFamilies.SiblingCacheIds | addbulkfamilies.php:84-140 | the sibling cache (`SiblingCache`) holds a user id iff it is an existing student of some resolved parent of the family |
| BulkFamilies.FirstNameMatch | addbulkfamilies.php:192-193 | returns the first cache entry whose first and last names match ignoring ASCII case. None means there is no such entry |
| BulkFamilies.MatchSibling | addbulkfamilies.php:192-198 | the `foreach ... break` returns the first matching cache entry, or none when no entry matches |
| BulkFamilies.ResolveAllFacts | addbulkfamilies.php:107-228 | after a pass of lookups the stored accounts are kept and the table gains exactly the created emails, each with a fresh id. A lookup creates an account iff its email is neither stored nor created earlier in the pass and it has no name match. A stored email resolves to the stored account, an email created earlier to that same account, and a lookup without a name match to the account filed under its email |
| BulkFamilies.StoredAccountsWin | addbulkfamilies.php:107-119 | a pass keeps every stored account, and a person whose email is stored resolves to that account |
| BulkFamilies.ParentsAreFiled | addbulkfamilies.php:107-128 | after the parent pass every parent is filed under its email and is that account |
| BulkFamilies.CreatedWereAbsent | addbulkfamilies.php:110-113 | an account is created only for an email that was not stored before the pass, and it is filed afterwards |
| BulkFamilies.CreatedOnce | addbulkfamilies.php:107-228 | within one pass no email gets two new accounts |
| BulkFamilies.FamilyResolution | addbulkfamilies.php:84-228 | within one family every account stored before is kept and is what a parent or a student with that email resolves to; no email gets two new accounts, whether it is given twice to parents, twice to students, or to a parent and a student |
| BulkFamilies.PassCreatesFresh | addbulkfamilies.php:107-228 | the accounts a pass adds to `created_users` are new: the email of each was not stored before the pass, the account is filed under it afterwards, and no email occurs twice |
| BulkFamilies.FamilyCreatesFresh | addbulkfamilies.php:84-228 | the same for the parent pass followed by the student pass of one family: every created account's email was stored nowhere before the family and files that account afterwards, and no email gets two new accounts within the family |
| BulkFamilies.DedupMembers | addbulkfamilies.php:299 | `array_unique` (`Dedup`) keeps exactly the courses of the list, each once |
| BulkFamilies.DedupOnce | addbulkfamilies.php:299 | each course of the list occurs exactly once in the de-duplicated list |
| BulkFamilies.AllCoursesHas | addbulkfamilies.php:279 | a course is in the merged course list (`AllCourses`) iff some student of the family lists it |
| BulkFamilies.CourseEnrolmentsCount | addbulkfamilies.php:243-246 | a user is enrolled with the role in a course once per occurrence of that course in the list, and in nothing else |
| BulkFamilies.ParentEnrolmentsCount | addbulkfamilies.php:303-309 | each parent is enrolled in each course as often as the parent appears times the course's occurrences |
| BulkFamilies.ParentEnrolmentsRange | addbulkfamilies.php:303-309 | parent enrolments have the parent role, a listed course and one of the parents |
| BulkFamilies.ParentsEnrolledInChildrenCourses | addbulkfamilies.php:279-314 | a parent listed once is enrolled exactly once in each course some child lists, and in no other course |
| BulkFamilies.ParentLinksCount | addbulkfamilies.php:283-284 | linking a student to the parents makes one link per occurrence of each parent |
| BulkFamilies.LinksCount | addbulkfamilies.php:283-289 | each student-parent pair is linked (occurrences of the student) × (occurrences of the parent) times. That is exactly once for distinct accounts |
| BulkFamilies.AccountsPartition | addbulkfamilies.php:121-222 | the accounts a pass adds to `created_users` and to `existing_users` hold, as multisets, every resolved account of the pass (`AllAccounts`) exactly as often as the pass resolves to it, so each resolution goes to exactly one of the two lists; their lengths add up to the pass's |
| BulkFamilies.ParentPassCounts | addbulkfamilies.php:121-128 | the parent pass reports no error and exactly one success or warning per parent |
| BulkFamilies.StudentPassReportsNoCourses | addbulkfamilies.php:240-241 | every student without courses is reported with a "no courses" error |
| BulkFamilies.FamilyWithoutCoursesIsError | addbulkfamilies.php:240-342 | a family in which some student lists no course has the error status: its messages (`FamilyMessages`, the parent pass, then the student pass, then the parent enrolments) hold a "no courses" error |
| BulkFamilies.FamilyName | addbulkfamilies.php:345-352 | the family name is the first parent's last name, else the first student's. None (the throw) iff the family has no users |
| BulkFamilies.UpsertOne | addbulkfamilies.php:373-411 | an existing row changes only its partnership and modification time. Otherwise one row is appended with `[]` id lists, empty addresses and both times `now` |
| BulkFamilies.CountRowsUpdate | addbulkfamilies.php:381 | updating a row in place does not change any user's row count |
| BulkFamilies.CountRowsPositive | addbulkfamilies.php:373-375 | a user has no rows iff no row carries the user's id |
| BulkFamilies.UpsertOneCounts | addbulkfamilies.php:371-412 | one upsert gives the account max(1, old count) rows and leaves every other account's count alone |
| BulkFamilies.UpsertAllCounts | addbulkfamilies.php:366-412 | after the upsert pass (`UpsertAll`), a processed account with no row has exactly one, however often it was processed. All other counts are unchanged |
| BulkFamilies.DuplicatedIds | addbulkfamilies.php:417-423 | lists exactly the listed ids that have more than one shadow row |
| BulkFamilies.ProcessedAccountGetsOneRow | addbulkfamilies.php:366-423 | a processed account that had no row ends with one, and the merge helper is not called for it |
| BulkFamilies.BulkUpload.constructor | addbulkfamilies.php:60-67 | the upload starts with the given user and shadow tables and empty logs |
| BulkFamilies.BulkUpload.CreateUser | addbulkfamilies.php:113 | `user_create_user` files one new account under its email, with an id no stored account has |
| BulkFamilies.BulkUpload.ResolveParent | addbulkfamilies.php:107-128 | an existing email: no account is created, the parent is the stored record, one "already exists" warning is added and the parent goes to `existing_users`. Otherwise exactly one account is created, with one success, and goes to `created_users` |
| BulkFamilies.BulkUpload.ResolveParents | addbulkfamilies.php:84-140 | the parents, their created flags, the user table and the next id are exactly those of `ResolveAll` over the parents' lookups by email, from the table before the family. Each parent is the account filed under its email. The sibling cache is the key union of the parents' existing students. The messages and the created and existing lists are those of the parents, in order |
| BulkFamilies.BulkUpload.ResolveStudent | addbulkfamilies.php:164-228 | the student is the account of its email (given, or generated from the first parent's), else the first name match in the sibling cache. A new account is created iff neither matches, and the student goes to `created_users` or `existing_users` with the matching message |
| BulkFamilies.BulkUpload.EnrolStudent | addbulkfamilies.php:238-280 | an empty course list gives exactly one "no courses" error and no enrolment. Otherwise there is one student-role enrolment per listed course, each result's messages appended in order |
| BulkFamilies.BulkUpload.LinkParents | addbulkfamilies.php:283-289 | one parent-role link per parent, in order, each result's messages appended |
| BulkFamilies.BulkUpload.ProcessStudent | addbulkfamilies.php:144-292 | one student: it is the stored account of its email, else the first name match in the sibling cache, else a new account with the next id filed under the email, and it was created iff neither matched. Then its enrolments, its course list added to the family's (only when non-empty), and its links to every parent |
| BulkFamilies.BulkUpload.ProcessStudents | addbulkfamilies.php:144-292 | the students, their created flags, the user table and the next id are exactly those of `ResolveAll` over the students' lookups, each seeing the accounts created before it. The course union is the merge of all students' lists. The enrolments, links, messages and account lists are those of the students, in order |
| BulkFamilies.BulkUpload.EnrolParents | addbulkfamilies.php:303-314 | every parent is enrolled with the parent role in every course of the list, parent by parent, each result's messages appended |
| BulkFamilies.BulkUpload.ResolveFamily | addbulkfamilies.php:84-292 | the two passes of a family: accounts, created flags, user table and next id are those `FamilyPass` gives, stored accounts are kept, and the enrolments, links, account lists and messages are those of the parent pass followed by the student pass |
| BulkFamilies.BulkUpload.ProcessFamily | addbulkfamilies.php:72-363 | the parents, students, created flags, user table and next id are those `FamilyPass` gives, and every account stored before the family is kept unchanged. Messages start empty. The family's enrolments, links, account lists and messages are those of its parent pass, student pass and parent enrolments. The family throws iff it has no users, and otherwise adds one notification with its name, messages and status |
| BulkFamilies.BulkUpload.NextFamily | addbulkfamilies.php:72-363 | one iteration of the family loop throws iff the family has no users, keeps every stored account and adds one notification iff it did not throw. It appends `made` to `created_users` and `found` to `existing_users`, one account per parent and student, and the `made` accounts are new: each email was not stored before the family, files its account afterwards, and occurs once |
| BulkFamilies.BulkUpload.ProcessFamilies | addbulkfamilies.php:72-364 | families are processed in order until the first one without users. Its exception is caught outside the loop (lines 432-437), so it aborts the loop. Each processed family adds one notification, and every account stored before the loop is kept unchanged. `created_users` and `existing_users` only grow, and the accounts created during the loop are new: each email was stored nowhere before the loop, files its account afterwards, and the same email never gets two new accounts in one upload, even from two families |
| BulkFamilies.BulkUpload.UpsertShadowProfiles | addbulkfamilies.php:371-412 | the upsert pass leaves the table that upserting `$allusers` in order gives |
| BulkFamilies.BulkUpload.SweepDuplicates | addbulkfamilies.php:417-423 | the merge helper is called, in order, for exactly the user ids with more than one row before the sweep |
| BulkFamilies.BulkUpload.StoreProfiles | addbulkfamilies.php:366-423 | after the family loop, the merge helper is called for exactly the user ids that have more than one row once `created_users` followed by `existing_users` are upserted |
| BulkFamilies.BulkUpload.Run | addbulkfamilies.php:70-437 | every account stored before the upload is kept unchanged, and the accounts created during the upload are new, each email once. An aborted upload leaves the shadow table alone. Otherwise the merge helper is called for exactly the user ids that have more than one row after upserting `created_users` followed by `existing_users` |

## Left out

- Output and framework calls are not modelled: page setup, `html_writer`, `$OUTPUT`, notifications as HTML, redirects and `flexible_table` rendering.
- Localised strings (`get_string`) and date formatting (`userdate`) are parameters (`Renderer`). The `Message` datatype names the messages instead of their text.
- The helpers defined in `lib.php` are not part of this model. They are function parameters of `Env` or `Renderer` with no assumed behaviour:
  - students of a parent;
  - enrolment, which returns a success/warning/error triple;
  - role assignment;
  - student email generation;
  - the VCC student list.
- The merge helper is a parameter of `SweepDuplicates`. The sweep assumes only that it leaves other users' row counts alone.
- The students-of-parent helper is assumed to be keyed by user id (the array that PHP `+` unites), and to read only the role links made so far.
- Username generation, `generate_password` and the user-record fields beyond id, names and email are left out. None of them affects a decision of the page.
- `clean_param` is not modelled: the model looks up accounts by the email and compares the names exactly as the form gives them, so inputs are taken to be clean already. In the page, `PARAM_EMAIL` can turn an invalid email into `""` (lines 95 and 170), which is then the lookup key (lines 107 and 190), and `PARAM_TEXT` (lines 88-90 and 151-153) can change the names that `strcasecmp` compares (line 193).
- `time()` is the parameter `now`, taken as constant during the upsert pass.
- The ids of inserted shadow rows come from a counter.
- The `$families` array (line 317) is not modelled, because nothing reads it after it is filled.
- The development loop that deletes every processed user (addbulkfamilies.php:425-429) is left out, and so is any property about what persists after a run.
- `user_create_user` always succeeds in the model, so the error branches at addbulkfamilies.php:129-133 and 223-227 are unreachable and not modelled.
- The re-fetch of a name-matched student (line 194) is assumed to find the user. The student is bound to the sibling-cache record.
- A student without an email needs at least one parent (line 167). This is the precondition `StudentEmailsResolvable`.
- The enrolment and role-assignment helpers are modelled as depending only on their arguments, not on the database state they change.
- BulkFamilies.BulkUpload.ProcessFamilies: states that the created and existing lists only grow and that the created accounts are new and distinct by email, but not which family or person each entry came from, nor the enrolments, links and notifications beyond their count. `ProcessFamily` states those for one family.
- BulkFamilies.BulkUpload.NextFamily: passes on from `ProcessFamily` the accounts appended to both lists and the freshness of the created ones, but not which parent or student each entry is, nor the family's enrolments, links, messages and notification text. `ProcessFamily` states those.
- BulkFamilies.BulkUpload.Run: the user ids of the whole system are a parameter assumed to be distinct. The shadow table after the merge calls is not stated, because the merge helper is abstract.
- BulkFamilies.BulkUpload.Valid: it only requires that every stored account is filed under its own email with an id below the next one. Other database constraints are not modelled.
- FormHandling.RepeatingFieldsets.UpdateFieldsetNumbers: the page labels every `.local-equipment-{name}-{type}` element in document order (amd/src/formhandling.js:66). The model keeps one heading per fieldset, so it assumes that heading i belongs to fieldset i: each fieldset holds exactly one such element and nothing else on the page has that class.
- The SQL of vccsubmissions.php:112-142 is not modelled. The query results are given as sequences, and NULL columns are `""`.
- VccSubmissions.BuildRows: the student-list helper is given the submission as queried. The page passes it (vccsubmissions.php:206) the record after the loop has rewritten its pickup instructions and mailing fields, set `locationname` to the pickup name (line 178) and replaced `starttime` by its formatted text (line 192).
- VccSubmissions.BuildRows: the rewritten pickup instructions and the re-formatted start time (vccsubmissions.php:179, 192) do not appear in any cell, so only the pickup name is kept.
- In the form script, the following are left out: jQuery event wiring, the `MutationObserver`, the promises of `getString`, `console`/`Log` output, the `history` calls, mobile detection and multi-select handling.
- FormHandling.RepeatingFieldsets.UpdateFieldsetNumbers: the heading holds the number passed to the localised string, not the string.
- `setupFieldsetNameUpdates` is modelled only as far as the index parse and the fallback header. The lookups of the header and first-name fields and the header text from the localised string are not modelled.
- FormHandling.ParseIntDecimal: the value is not limited to JavaScript's double precision, so numerals beyond 2^53 read back exactly.
- A fieldset's own DOM id is never rewritten by `renumberFormElements`. The model keeps it, and the index parsed from it may therefore differ from the renumbered index.
- `addpartnership_form.php` is not part of this model.
