# Impluse quiz and gallery core, modelled in Dafny

Impluse is a mentorship web application. This project models the parts of it
that hold decisions rather than plumbing:

- the quiz back end: creating, listing and deleting tests; submitting answers,
  with the best-effort e-mails that follow; reading and deleting submissions,
  which expire 74 hours after they are made;
- the two quiz pages: building the answers a user submits, and the test editor
  with its publish check;
- the image gallery back end: multi-file upload with shared or per-file
  metadata, newest-first listing, and ordered deletion by public id;
- the upload and gallery pages;
- the authentication middleware (bearer token, admin gate);
- the theme provider and the collapsed chat answer.

Each source file is one module. The document store, the pages and the theme
provider are classes whose methods change their fields as the handlers do.
Pure checks and conversions are functions, and the properties are lemmas.
The foreign services are parameters:

- the image host's answers are sequences indexed by file or id position;
- `jwt.verify` is a partial function;
- the clock is an integer in milliseconds;
- whether a read, a write, a request or a mail succeeds is a boolean.

Shared helpers:

- `Wrappers`: an `Option` type for values that may be missing.
- `JsText`: the JavaScript behaviours the code relies on — `trim`, one-character
  `split`, `x || fallback` truthiness, `filter`, and index removal.
- `Display`: the collapse-to-a-prefix rule used by both the chat card and the
  gallery card.

The server's `submitTest` stores the answers exactly as they arrive. It neither
aligns them with the test's questions nor inserts the "Not Answered" sentinel.
The page does both before posting: `SubmitTestPage.BuildAnswers` models that,
and `TestController.Database.SubmitTest` stores `body.answers` unchanged.

## Model

| member | source | states |
|---|---|---|
| Auth.BearerToken | backend/middleware/authMiddleware.js:5 | The token is the second space-separated piece of the Authorization header. It is kept only when present and non-empty. It never contains a space. |
| Auth.BearerTokenOfHeader | backend/middleware/authMiddleware.js:5 | "scheme token" and "scheme token rest" both yield exactly `token`. |
| Auth.NoTokenWithoutSecondPiece | backend/middleware/authMiddleware.js:5-6 | A header with no space, or with nothing after its first space, yields no token, so the answer is 401. |
| Auth.Protect | backend/middleware/authMiddleware.js:4-21 | The request proceeds iff there is a token, it verifies, the user read succeeds, and the id names a stored user. Then req.user is that user. Every other outcome is 401 and leaves req.user unchanged: no token gives NoToken; a failed verification or a failed user read gives InvalidToken; an unknown id gives UserNotFound. |
| Auth.IsAdmin | backend/middleware/authMiddleware.js:24-34 | The request proceeds iff there is a user whose role is exactly "admin". Otherwise 403, with NoUser when there is no user. |
| TestSchema.SchemaSetsNoMinimums | backend/models/Test.js:23-25 | The schema accepts a test without questions and a question without options. |
| TestSchema.EmptyOptionRejected | backend/models/Test.js:8-11 | A single empty-string option makes the whole test fail validation. |
| SubmissionSchema.LiveExactlyDuringRetention | backend/models/TestSubmissions.js:27-31 | A submission is found iff fewer than 74 hours have passed since submittedAt. |
| SubmissionSchema.ExpiryIsFinal | backend/models/TestSubmissions.js:30 | Once a submission has expired, it is not found at any later time. |
| SubmissionSchema.IsLive | backend/models/TestSubmissions.js:27-31 | A submission is visible at a given time iff that time is before its submittedAt plus the 74-hour TTL. |
| TestController.CheckQuestion | backend/controllers/TestController.js:26 | A question passes iff its text is present and non-blank and its options are an array of at least one. Missing text throws, giving 500. |
| TestController.CheckFields | backend/controllers/TestController.js:16-23 | The field check runs left to right: title, then description, then the question array. A missing title or description throws when it is reached, and a blank one answers 400. |
| TestController.FieldCheckOutcomes | backend/controllers/TestController.js:16-23 | The field check passes iff title and description are present and non-blank and questions is a non-empty array. It throws (500) iff the title is missing, or the title is non-blank and the description is missing: `||` stops at the first blank field before a later missing one is trimmed. |
| TestController.CreateVerdict | backend/controllers/TestController.js:16-32 | The question loop runs only after the field check passes; the first failing step decides the verdict. |
| TestController.CreateVerdictPassIff | backend/controllers/TestController.js:16-32 | The input checks pass iff the fields pass and every question has non-blank text and at least one option. |
| TestController.QuestionsVerdict | backend/controllers/TestController.js:25-32 | The question loop passes iff every question passes. |
| TestController.FirstFailingQuestionDecides | backend/controllers/TestController.js:25-32 | When the loop fails, its verdict is that of the first failing question, and every question before it passed. |
| TestController.StoredQuestions | backend/controllers/TestController.js:37 | The questions are stored as given: same number, order, text and options. |
| TestController.TestFromBody | backend/controllers/TestController.js:34-38 | The saved title and description are the trimmed inputs and are non-empty. There is at least one question, each stored as given. |
| TestController.CheckedTestConformsIffOptionsNonEmpty | backend/controllers/TestController.js:34-40 | A body that passes the controller's checks is saved iff none of its options is the empty string. |
| TestController.ControllerRequiresAQuestion | backend/controllers/TestController.js:18 | The schema accepts a test without questions; the controller answers 400 for it. |
| TestController.AdminRecipients | backend/controllers/TestController.js:146 | A truthy Admin_Email splits into at least one address, and the addresses join back to it. Otherwise there are no recipients. |
| TestController.NewSubmission | backend/controllers/TestController.js:138-143 | The submission carries the test name, the answers as given, the user's email and id, and the current time. It validates iff the email is non-empty and every answer validates. |
| TestController.SubmitShapeOk | backend/controllers/TestController.js:113 | The body passes the shape check iff testName is present and non-empty and answers is present with non-zero length (bodies arrive typed; see the parsing line under Left out). |
| TestController.HasTitle | backend/controllers/TestController.js:130 | The lookup finds a test iff some stored test's title equals the name exactly. |
| TestController.OnlyTrimmedTitleFindsTest | backend/controllers/TestController.js:130 | A created test is found by its trimmed title and by no other name, so a name with the original surrounding spaces gives 404. |
| TestController.OwnedListOnlyShrinks | backend/controllers/TestController.js:201 | A user's list only shrinks as time passes: a submission missing from it at one time is missing at every later time. Every listed submission belongs to that user. |
| TestController.Database.ValidateQuestions | backend/controllers/TestController.js:25-32 | The loop with its early return computes the same verdict as QuestionsVerdict. |
| TestController.Database.CreateTest | backend/controllers/TestController.js:7-53 | 403 iff the caller is not an admin, before any check. 400 iff an admin's body fails a check. 500 iff a check throws, or the checks pass but the schema or the write fails. 201 iff the checks, the schema and the write all succeed; then exactly one test is added under a fresh id. Otherwise the catalog and the id counter are unchanged. |
| TestController.Database.InsertTest | backend/controllers/TestController.js:40 | The test is stored under a fresh id; nothing else changes. |
| TestController.Database.GetAllTest | backend/controllers/TestController.js:58-77 | A failed read gives 500. Otherwise 404 iff the catalog is empty, and 200 with every stored test. |
| TestController.Database.DeleteTest | backend/controllers/TestController.js:85-98 | 200 iff the id is stored, and then exactly that test is removed. An absent id gives 404, so deleting the same id a second time fails. Submissions are untouched. |
| TestController.Database.SendCompletionEmail | backend/controllers/TestController.js:247-288 | Records one mail attempt to the user, whether or not it is delivered. |
| TestController.Database.SendAdminEmail | backend/controllers/TestController.js:291-333 | Records one mail attempt to the administrators, whether or not it is delivered. |
| TestController.Database.SubmitTest | backend/controllers/TestController.js:109-161 | Checks run in order: 400 for the body's shape; 500 when the user lookup fails, else 401 for an unknown user; 500 when the test lookup fails, else 404 when no test has exactly that title. None of these changes anything. On 200 there is exactly one new submission, it is stored before both mail attempts, and the outcome does not depend on mail delivery. |
| TestController.Database.GetTestSubmission | backend/controllers/TestController.js:166-186 | A failed read gives 500. Otherwise 200 with the submission iff it exists and has not expired, and 404 in every other case. |
| TestController.Database.GetUserSubmissions | backend/controllers/TestController.js:193-213 | 400 iff no userId is given. Otherwise a failed query gives 500, and 200 comes with exactly that user's live submissions. |
| TestController.Database.DeleteTestSubmission | backend/controllers/TestController.js:218-243 | A failed lookup gives 500. Otherwise a submission that is missing, owned by someone else, or expired gives the same 404; else a failed removal gives 500, and 200 removes exactly that submission and leaves the others untouched. |
| SubmitTestPage.SingleSelectionGivesOneAnswer | frontend/src/pages/SubmitTest.jsx:32-34 | A non-array selection yields exactly one answer: the option itself when truthy, else "Not Answered". |
| SubmitTestPage.AnswerFor | frontend/src/pages/SubmitTest.jsx:32-34 | The answer list is empty only for an empty array selection. A non-array selection that yields the sentinel yields only the sentinel. |
| SubmitTestPage.BuildAnswers | frontend/src/pages/SubmitTest.jsx:30-35 | One entry per question, in question order. Each entry has the question's text and the answer built from that question's selection. |
| SubmitTestPage.Payload | frontend/src/pages/SubmitTest.jsx:37-40 | The posted body names the test by its title and carries one answer entry per question, with that question's text, in question order. |
| SubmitTestPage.PayloadShapeAccepted | frontend/src/pages/SubmitTest.jsx:37-40 | The server's shape check accepts the page's payload iff the test has a non-empty title and at least one question. |
| SubmitTestPage.BuiltAnswersConform | frontend/src/pages/SubmitTest.jsx:30-35 | Thanks to the sentinel, the built answers pass the submission schema whenever every question has text and no array selection holds an empty string. |
| SubmitTestPage.SubmitTestForm.HandleOptionChange | frontend/src/pages/SubmitTest.jsx:58-63 | Sets only that question's choice, replacing any earlier one. Every other question's choice is unchanged. |
| SubmitTestPage.SubmitTestForm.HandleSubmit | frontend/src/pages/SubmitTest.jsx:20-55 | With no selection, nothing is sent. Otherwise the title and the built answers are sent. The selection is cleared only after the request succeeds. |
| CreateTestPage.Inputs | frontend/src/pages/CreateTest.jsx:74 | The posted questions are the drafts, one for one, in order. |
| CreateTestPage.PublishCheck | frontend/src/pages/CreateTest.jsx:68 | The page publishes only with a non-blank title and description, at least one question, and for every question non-blank text and at least two options. |
| CreateTestPage.Body | frontend/src/pages/CreateTest.jsx:74 | The posted body never makes the server's field check throw. It passes that check iff title and description are non-blank and there is at least one question. |
| CreateTestPage.PublishCheckImpliesServerChecks | frontend/src/pages/CreateTest.jsx:68 | Whatever the page's check lets through also passes every input check of the server. |
| CreateTestPage.ServerAcceptsSingleOption | frontend/src/pages/CreateTest.jsx:68 | The page requires two options per question; the server accepts one. |
| CreateTestPage.UntouchedOptionsFailOnlyAtSave | frontend/src/pages/CreateTest.jsx:16 | Options left empty pass both checks, and the document then fails the schema when it is saved. |
| CreateTestPage.TestEditor.constructor | frontend/src/pages/CreateTest.jsx:15-23 | The editor starts with one question that has two empty options, an empty title, and a null description. |
| CreateTestPage.TestEditor.AddQuestion | frontend/src/pages/CreateTest.jsx:91-93 | Appends one blank question with two empty options; the existing questions are unchanged. |
| CreateTestPage.TestEditor.DeleteQuestion | frontend/src/pages/CreateTest.jsx:95-103 | Removes that question only while there is more than one, so there is always at least one. |
| CreateTestPage.TestEditor.AddOption | frontend/src/pages/CreateTest.jsx:105-109 | Appends "" to that question's options only. |
| CreateTestPage.TestEditor.DeleteOption | frontend/src/pages/CreateTest.jsx:111-119 | Removes that option only while the question has more than one, so no question is left without options. |
| CreateTestPage.TestEditor.SetQuestionText | frontend/src/pages/CreateTest.jsx:259-263 | Changes the text of that question only. |
| CreateTestPage.TestEditor.SetOptionText | frontend/src/pages/CreateTest.jsx:283-287 | Changes that one option only. |
| CreateTestPage.TestEditor.SetTitle | frontend/src/pages/CreateTest.jsx:237 | The title becomes the typed value. |
| CreateTestPage.TestEditor.SetDescription | frontend/src/pages/CreateTest.jsx:244 | The description becomes the typed value. |
| CreateTestPage.TestEditor.Publish | frontend/src/pages/CreateTest.jsx:64-89 | Sends the body iff the description was edited and the page's check passes. The form resets to blank only after a successful request and is otherwise unchanged. Afterwards the editor is closed and testDone is true. testDone starts false (line 20) and is never cleared, so only the first publish changes it and triggers the list refetch (lines 27-43). |
| CreateTestPage.TestEditor.ResetForm | frontend/src/pages/CreateTest.jsx:81-83 | The title and description become "" and the questions go back to one blank question. |
| CreateTestPage.TestEditor.DeleteTest | frontend/src/pages/CreateTest.jsx:46-60 | After a confirmed delete, exactly the tests with that id leave the local list and the rest keep their order. |
| ImageController.Defaulted | backend/controllers/imageController.js:36-40 | A missing or empty title becomes "Untitled", a missing or empty description becomes "No description", and missing tags become []. The result never has a blank title or description. |
| ImageController.SharedMetadataIsUniform | backend/controllers/imageController.js:35-41 | When applySameMetadata is exactly "true", every file gets the same shared metadata. |
| ImageController.PerFileMetadata | backend/controllers/imageController.js:42-49 | Any other flag value uses the i-th entry with the same defaults. Without a metadata array every default applies. A missing i-th entry makes the handler fail. |
| ImageController.ResolveMetadata | backend/controllers/imageController.js:33-49 | A file has no metadata, and the handler throws, iff the per-file path is taken and the metadata array has no entry for it. Resolved metadata never has an empty title or description. |
| ImageController.ResolvedMetadataNeverBlank | backend/controllers/imageController.js:35-49 | Every stored image has a non-empty title and description. |
| ImageController.StampAsWritten | backend/models/Image.js:22-25 | As written, the createdAt default is the time the schema was loaded, whatever the creation time. |
| ImageController.Stamp | backend/models/Image.js:22-25 | The evidently intended default: the creation time. |
| ImageController.UploadedDoc | backend/controllers/imageController.js:51-58 | A file gets a record iff its upload succeeded and it has metadata. The record carries the host's URL and public id, the uploader, the resolved metadata and the given stamp. |
| ImageController.InsertByDate | backend/controllers/imageController.js:79 | Inserting into a newest-first list keeps it newest first and adds exactly that image. |
| ImageController.SortNewestFirst | backend/controllers/imageController.js:79 | The listing is ordered by createdAt, newest first, and is a permutation of the stored images. |
| ImageController.FirstIndex | backend/controllers/imageController.js:107 | Finds the first image with that public id. |
| ImageController.RemoveFirst | backend/controllers/imageController.js:124 | Removes one image when the id is present and changes nothing when it is absent. |
| ImageController.RemoveFirstShape | backend/controllers/imageController.js:124 | The remaining images are those before the first match followed by those after it. |
| ImageController.RemoveFirstKeepsOthers | backend/controllers/imageController.js:124 | Every image with a different public id survives the removal. |
| ImageController.RemoveFirstUnique | backend/controllers/imageController.js:124 | With unique public ids, the removed id is gone afterwards and the ids stay unique. |
| ImageController.RemoveFirstKeepsAbsence | backend/controllers/imageController.js:124 | A removal never brings back an id that was absent. |
| ImageController.DeletedIdsAreGone | backend/controllers/imageController.js:103-126 | After n deletions, no image carries any of the n deleted ids. |
| ImageController.OtherIdsStayFindable | backend/controllers/imageController.js:103-126 | Deleting other ids never removes an image with this id, so a stored id that differs from all earlier ids is still found. |
| ImageController.ImageStore.UploadImages | backend/controllers/imageController.js:5-73 | 400 iff there are no files. One record per file, in file order, each stamped with the schema-load time. 201 iff every file uploads, has metadata and is created. The first failure gives 500 and keeps the images created before it. |
| ImageController.ImageStore.GetImages | backend/controllers/imageController.js:77-90 | 200 iff the query succeeds, with every stored image, newest first. A failed query gives 500. |
| ImageController.ImageStore.DeleteImages | backend/controllers/imageController.js:93-138 | A missing or empty id list gives 400. Otherwise ids are deleted in order, and the deleted ids are a prefix of the request. 200 iff all of them are deleted. The first id that is not found gives 404; the first id whose destroy is not "ok" gives 500. Earlier deletions stay. Distinct ids that are all stored and all destroyed give 200. |
| ImageController.ImageStore.DeleteInOrder | backend/controllers/imageController.js:103-126 | The loop removes exactly the first n ids and stops at the first missing or undestroyed id. |
| ImageController.AsWrittenStampsDoNotOrder | backend/models/Image.js:22-25 | With the default as written, an older and a newer upload get the same stamp, so both orders are newest-first listings. |
| ImageController.AsWrittenAnyOrderIsNewestFirst | backend/controllers/imageController.js:79 | Every arrangement of the records uploadImages creates is newest first, so the listing says nothing about upload order. |
| ImageController.StampListsNewerFirst | backend/models/Image.js:22-25 | With the stamp taken at creation time, the newer upload is listed first. |
| ImageController.FindOneAsWritten | backend/controllers/imageController.js:107 | As written, with no stored public ids, the lookup finds a document iff the unknown filter path is stripped and the store is non-empty. |
| ImageController.AsWrittenDeleteNeverSucceeds | backend/controllers/imageController.js:93-138 | As written, a non-empty selection always gives 404 or 500, never 200. It is 404 iff the filter keeps the unknown path or the store is empty. |
| UploadImagePage.LastEditWins | frontend/src/pages/UploadImage.jsx:35-39 | Editing one field twice keeps the last value. Edits of different fields commute. |
| UploadImagePage.NewFiles | frontend/src/pages/UploadImage.jsx:19-21 | Keeps exactly the chosen files whose name is not already held. |
| UploadImagePage.DuplicatesInOneChoiceAreKept | frontend/src/pages/UploadImage.jsx:19-21 | The check is only against files already held, so one name chosen twice at once is added twice. |
| UploadImagePage.EntryTagsJoinBack | frontend/src/pages/UploadImage.jsx:58-66 | Each entry's tags hold no comma and join back to the draft's tag string. |
| UploadImagePage.RequestBody | frontend/src/pages/UploadImage.jsx:50-67 | The server takes the shared-metadata path iff the switch is on. Otherwise the request carries one metadata entry per draft. |
| UploadImagePage.EveryFileGetsMetadata | frontend/src/pages/UploadImage.jsx:50-67 | The page's request always resolves metadata for every file it holds, with the server's defaults for a blank title or description. |
| UploadImagePage.PageUploadsFailOnlyAtHost | frontend/src/pages/UploadImage.jsx:50-67 | For a request from the page, a file gets a record to create iff the image host accepted it; the metadata never stops an upload. |
| UploadImagePage.EmptyTagsGiveOneEmptyTag | frontend/src/pages/UploadImage.jsx:55 | An empty tag string is stored as one empty tag, not as no tags. |
| UploadImagePage.UploadForm.constructor | frontend/src/pages/UploadImage.jsx:10-14 | The form starts with no files, shared metadata switched on, and blank drafts. |
| UploadImagePage.UploadForm.HandleFileChange | frontend/src/pages/UploadImage.jsx:17-27 | Appends the new files and exactly as many blank drafts, so the files and drafts stay the same length. |
| UploadImagePage.UploadForm.RemoveFile | frontend/src/pages/UploadImage.jsx:29-33 | Removes the same position from both lists. |
| UploadImagePage.UploadForm.HandleMetadataChange | frontend/src/pages/UploadImage.jsx:35-39 | Changes one field of one draft and nothing else. |
| UploadImagePage.UploadForm.ToggleApplySame | frontend/src/pages/UploadImage.jsx:140 | Flips the shared-metadata switch. |
| UploadImagePage.UploadForm.SetCommon | frontend/src/pages/UploadImage.jsx:152 | Changes one field of the shared metadata. |
| UploadImagePage.UploadForm.HandleUpload | frontend/src/pages/UploadImage.jsx:41-89 | With no files, nothing is sent. Otherwise the files and the fields are posted. A successful request resets the files and both kinds of metadata; a failed one leaves them as they were. |
| ImageGalleryPage.Toggle | frontend/src/pages/ImageGallery.jsx:61-67 | Flips the membership of that id and leaves every other id's membership alone. |
| ImageGalleryPage.ToggleTwiceRestoresMembership | frontend/src/pages/ImageGallery.jsx:61-67 | Toggling the same id twice restores the selected set. |
| ImageGalleryPage.ToggleTwiceFromUnticked | frontend/src/pages/ImageGallery.jsx:61-67 | Ticking an unticked id and unticking it again restores the very same list. |
| ImageGalleryPage.ToggleKeepsDistinct | frontend/src/pages/ImageGallery.jsx:61-67 | No id is ever selected twice. |
| ImageGalleryPage.DescriptionDisplay | frontend/src/pages/ImageGallery.jsx:111-113 | A collapsed description longer than 50 characters shows its first 50 characters and "... "; every other description is shown whole. |
| ImageGalleryPage.Remaining | frontend/src/pages/ImageGallery.jsx:49-51 | Exactly the images whose public id was not selected remain. |
| ImageGalleryPage.RemainingKeepsOrder | frontend/src/pages/ImageGallery.jsx:49-51 | The remaining images keep their relative order. |
| ImageGalleryPage.Gallery.FetchImages | frontend/src/pages/ImageGallery.jsx:16-28 | The list becomes the server's list; a failed fetch keeps the old list and shows the error. |
| ImageGalleryPage.Gallery.HandleCheckboxChange | frontend/src/pages/ImageGallery.jsx:61-67 | The selection is toggled for that id. |
| ImageGalleryPage.Gallery.ToggleExpand | frontend/src/pages/ImageGallery.jsx:69-71 | Flips that card's flag and no other. |
| ImageGalleryPage.Gallery.HandleDelete | frontend/src/pages/ImageGallery.jsx:31-59 | With nothing selected, nothing is sent and nothing changes. A successful delete removes the selected images and clears the selection. A failed one keeps both and shows the error. |
| Display.CollapsedIsPrefixPlusEllipsis | frontend/src/component/ChatShow.jsx:39 | The collapsed form of a long text is its first `limit` characters followed by the ellipsis. |
| Display.ShownWholeUnlessLongAndCollapsed | frontend/src/pages/ImageGallery.jsx:111-113 | Expanded text, and text within the limit, is shown unchanged. |
| Theme.SystemTheme | src/context/ThemeContext.jsx:6-10 | "dark" iff the system prefers dark, else "light". |
| Theme.Toggled | src/context/ThemeContext.jsx:34 | "light" becomes "dark", and anything else becomes "light". |
| Theme.ToggleTwiceIsIdentity | src/context/ThemeContext.jsx:33-35 | On {light, dark}, toggling twice changes nothing. |
| Theme.ToggleTwiceNormalises | src/context/ThemeContext.jsx:34 | Any other stored value becomes "dark" after two toggles. |
| Theme.MountedThemeIsStable | src/context/ThemeContext.jsx:14-31 | Once mounted and stored, the theme is what every later mount picks, whatever the system then prefers. It is "light" or "dark" unless a foreign value was stored. |
| Theme.ThemeProvider.constructor | src/context/ThemeContext.jsx:12 | The theme starts as "light". |
| Theme.ThemeProvider.ApplyTheme | src/context/ThemeContext.jsx:19-31 | "dark" sets the dark attribute and class on the root; anything else sets "light" and removes the class. The theme is then saved to storage. |
| Theme.ThemeProvider.Mount | src/context/ThemeContext.jsx:14-17 | After mounting, the theme is the value saved before the page loaded (or the system theme), and it is applied and saved. |
| Theme.ThemeProvider.ToggleTheme | src/context/ThemeContext.jsx:33-35 | The theme is toggled, applied and saved. |
| Theme.SavedDarkSurvivesMount | src/context/ThemeContext.jsx:14-17 | With "dark" saved, the mounted theme is "dark" whatever the system prefers. |
| ChatShow.QuestionShown | frontend/src/component/ChatShow.jsx:27 | The caller's question when it is truthy, else the default question. It is never empty. |
| ChatShow.DisplayedTextCases | frontend/src/component/ChatShow.jsx:38-39 | A collapsed answer longer than 200 characters shows its first 200 characters and "...", 203 characters in all. Any other answer is shown unchanged. |
| ChatShow.ChatCard.constructor | frontend/src/component/ChatShow.jsx:16 | The card starts collapsed. |
| ChatShow.ChatCard.ToggleExpanded | frontend/src/component/ChatShow.jsx:93-100 | The button exists only for long text. It flips the flag, and the displayed text switches between the full answer and its collapsed form. |
| JsText.TrimOfPadded | backend/controllers/TestController.js:35-36 | `trim` removes exactly the white space around a core that neither starts nor ends with white space. |
| JsText.TrimIdempotent | backend/controllers/TestController.js:35-36 | Trimming a trimmed title changes nothing. |
| JsText.Trim | backend/controllers/TestController.js:35-36 | The trimmed text is no longer than the input and neither starts nor ends with white space. |
| JsText.BlankIffAllSpace | backend/controllers/TestController.js:18 | `!s.trim()` holds iff every character of s is white space. |
| JsText.JoinSplit | backend/controllers/TestController.js:146 | Joining the pieces of `split(",")` gives back the original string. |
| JsText.Split | backend/controllers/TestController.js:146 | `split` on one character yields at least one piece, and no piece contains the separator. |
| JsText.SplitJoin | frontend/src/pages/UploadImage.jsx:55 | Splitting a comma-joined list of comma-free tags gives back the tags. |
| JsText.FilterConcat | frontend/src/pages/ImageGallery.jsx:50 | `filter` distributes over concatenation, so it keeps relative order. |

## Left out

- E-mail transport and templates: each mail is one recorded attempt with a delivered flag that does not influence the handler's result.
- The image host (upload streams and `destroy`): an oracle per file or id position. A file that the host accepted but whose metadata entry is missing stays on the host; the model does not track host-side assets.
- `jwt.verify`: a partial function given to `Auth.Protect`. Signatures and token expiry are not modelled.
- Identifier generation: a counter. The TTL sweeper's background lag is not modelled; expiry is a visibility test on the clock.
- TestController.Database.GetUserSubmissions: assumes a document library that ignores `.populate("testId")` on a path the schema lacks, as Mongoose 5 does. From Mongoose 6 on, `strictPopulate` makes that call throw, and every request with a userId gets 500. The package version is not part of this model.
- Parsing and cast errors: the bodies arrive already parsed (JSON.parse, multipart parsing, ObjectId casts).
- The multer limit of 15 files per request and the route wiring: not modelled. The routes file for tests is not mounted by the server at all.
- Lengths are counted in characters, not UTF-16 code units.
- ImageController.ImageStore.UploadImages: the record keeps the host's `public_id`, as the deletion handler needs. The schema as written declares no such path, so the id is dropped on create and deletion never succeeds (see Findings, where `AsWrittenDeleteNeverSucceeds` models that).
- ImageController.ImageStore.DeleteImages: a database error in a lookup or a removal (caught, 500) is not modelled; the store's lookups and removals always succeed.
- ImageController.ImageStore.GetImages: images with equal `createdAt` may come back in any order; the contract fixes only the newest-first order and the permutation.
- CreateTestPage.TestEditor.Publish: the blank-title toast, the TypeError thrown on a never-edited (null) description, and the failing-check toast all end with nothing sent and an unchanged form, and are modelled as one outcome. The toast texts are not modelled.
- CreateTestPage.TestEditor: the list refetch that a change of `testDone` triggers is an HTTP request and is not modelled; `tests` changes only through DeleteTest. Navigation to a test is not modelled.
- ImageGalleryPage.Gallery.HandleDelete: with nothing selected the handler calls `toast.warning`, which react-hot-toast does not provide. The call throws a TypeError before the `return`, so nothing is sent and no state changes, as modelled; the missing warning toast is not modelled.
- TestController.Database.DeleteTestSubmission: the owner compared is the `userId` of the request body, as in the source, not the authenticated user.
- ChatShow: the fixed answer text of the card is not reproduced; the card is modelled for any answer.
- The user controller (registration and login), the authentication form pages, toasts, axios, localStorage reads other than the theme, DOM rendering and animation: not part of this model.
- In-place updates of shared sub-objects in the page handlers (`newQuestions[qIdx].options.push`, `newMetadata[index][field] = value`) are modelled as value updates of the copied list. Aliasing between the old and new state objects is not captured.

## Findings

| source | as written | input that shows it | evidently intended | confidence | as-written member | corrected member |
|---|---|---|---|---|---|---|
| backend/models/Image.js:22-25 | `default: Date.now()` is evaluated once, when the schema is defined, so every image gets the process start time as `createdAt` | two uploads at t1 < t2 after one server start: both get the start time, so the newest-first sort may list either one first | `default: Date.now`, stamping each image when it is created, so the newest upload is listed first | high; not executed | ImageController.AsWrittenStampsDoNotOrder | ImageController.StampListsNewerFirst |
| backend/models/Image.js:4-26 | the schema declares no `public_id` path, so `Image.create` (imageController.js:51-58) drops the id, and `findOne({ public_id })` (imageController.js:107) never finds the uploaded image. Every listed image also lacks `public_id`, so on the gallery page (ImageGallery.jsx:111, 142) all cards share one "See More" flag and one checkbox state: expanding or ticking one card applies to every card | any upload, then a delete of its public id: 404 when unknown filter paths are kept; when they are stripped, the first stored image is found, its undefined id is not destroyed, and the answer is 500 | a `public_id: String` path, so the uploaded image is found and deleted | high; not executed | ImageController.AsWrittenDeleteNeverSucceeds | ImageController.ImageStore.DeleteImages |
