# Baby diary: a verified model of its core

This project models, in Dafny, the core of a baby diary application. The application has a Node/Express server over a Sequelize database and a React client. The model covers these parts:

- **Backups** (`Backup`). The archive name `createBackup` chooses, the `listBackups` filter, map and sort over the backup folder, and the `deleteOldBackups` retention loop (10 archives kept by default).
- **Uploads** (`Upload`, with `Paths` for Node's `path.extname` and `path.basename`):
  - the folder and generated file name of an upload;
  - the type filter and the 50 MB size limit;
  - the `optimizeImage` path rewrite and its update of the file record.
- **Request validation** (`Validation`). The five Joi schemas, written as rule lists over a JSON body, and the respond-400-or-continue behaviour of each `validate*` middleware.
- **Controllers** (`MemoryController`, `JournalController`, `TaskController`, `AppointmentController`, `MedicalController`, `SettingsController`). Each one works over an in-memory table (`Store`) that stands for its Sequelize model:
  - the `where` clause each list request builds, field by field;
  - the order of the results;
  - body normalisation;
  - the 404 rule of update and delete;
  - the counts of the statistics endpoints;
  - the settings merge.
- **Client state** (`UseApi`, `MediaUpload`, `BabyProfile`, `PhotoGallery`, `VideoGallery`, `Welcome`, `MobileNavigation`):
  - the list, pagination and filter hooks;
  - the file picker's checks and selection;
  - the memory, photo and video pages' lists and filters;
  - the `m:ss` duration rendering;
  - the onboarding carousel;
  - the mobile navigation bar.

State that the source updates in place is modelled as a Dafny class whose methods update it. This covers a table, the upload folders, the backup folder, hook state and component state. Pure `filter`/`map`/spread code is modelled as functions, with lemmas relating each function to an independent statement of what it computes. The shared modules are:

- `Lists`: filtering, mapping and subsequences.
- `Sorting`: a stable sort with permutation and ordering lemmas.
- `Text`: prefixes, substrings, `String.replace` and decimal rendering.
- `Maps`: object spreads.
- `Json`: JSON values.
- `Request`: replies and the `req.user?.id || 1` default.
- `Wrappers`: Option and Result.

Some inputs are not computed by the model and are given to it as parameters instead:

- clock readings and random numbers;
- `JSON.parse`, `toLowerCase` and date parsing;
- the outcomes of file-system, database and service calls;
- the date that `new Date` reads a backup timestamp as.

Five behaviours of the code are modelled as written, with lemmas that show them:

- `loadData` in `client/src/hooks/useApi.js` tests the promise rather than its result (`await a ? b : c`). As a result, `items` always becomes `[]`.
- `updateTask` never stamps `completedDate` with the current time. It compares `completed` in its copy of the body with `completed` in the body itself, and the two always agree. Only the branch that clears the date has an effect.
- The image path stored by `createMemory` is `/uploads/<filename>`. This path lacks the `images/` folder into which the upload middleware puts images.
- `deleteOldBackups` stops at the first unlink that fails, because one `try` wraps the whole loop. The remaining victims stay on disk.
- `listBackups` turns `backup-2024-01-15T10-30-00-000Z.zip` into the timestamp `2024:01:15T10:30:00:000Z`, which `new Date` cannot read. Every comparison of the sort is then NaN, which the sort takes as a tie, so the list stays in directory order. `deleteOldBackups` therefore keeps the first 10 archives the directory lists, which are not necessarily the newest. The model leaves the date a timestamp reads as a parameter, and lemmas show the directory order when all those dates are equal.

## Model

| member | source | states |
|---|---|---|
| AppointmentController.GetAllAppointments | server/controllers/appointmentController.js:5-29 | the answer is the table's rows that are wanted (the user's own; of the `type` unless it is absent or `Todos`; completed exactly when `completed` is `'true'`, if present; dated between both bounds when both are given), ordered by date |
| AppointmentController.GetAllAppointmentsExact | server/controllers/appointmentController.js:10-28 | a row is in the answer exactly when it is in the table and wanted, and the answer's dates never decrease |
| AppointmentController.SoonestAscending | server/controllers/appointmentController.js:28 | a list sorted by the key `[date]` has non-decreasing dates |
| AppointmentController.UpcomingFacts | server/controllers/appointmentController.js:95-108 | at most five rows, each in the table, the user's, not completed and dated at or after `now`, soonest first; they are the first rows of all such rows in date order, and all of them when there are no more than five |
| AppointmentController.NewAppointment | server/models/Appointment.js:10-45 | a row is built exactly when `title` and `date` are present; `type` defaults to `Médico` and `reminder` to true |
| AppointmentController.CreateAppointment | server/controllers/appointmentController.js:38-51 | 500 `Error creando cita` and no change when a required column is missing; otherwise 201 with a new row owned by the requesting user and appended to the table |
| AppointmentController.AppointmentPatchIdempotent | server/controllers/appointmentController.js:59-61 | writing the same body twice over a row gives the row of writing it once |
| AppointmentController.UpdateAppointment | server/controllers/appointmentController.js:54-73 | the user's rows with that id take the body; 404 `Cita no encontrada` exactly when there were none; otherwise 200 with a row of the table with that id and owner |
| AppointmentController.DeleteAppointment | server/controllers/appointmentController.js:75-93 | the user's rows with that id are removed; 404 `Cita no encontrada` exactly when there were none, otherwise 200 `Cita eliminada correctamente` |
| Backup.SafeStamp | server/utils/backup.js:15 | the safe timestamp has the ISO string's length and no `:` or `.` |
| Backup.ArchiveNameIsListed | server/utils/backup.js:16-73 | every archive name `createBackup` chooses passes the `listBackups` filter |
| Backup.ArchiveTimestamp | server/utils/backup.js:15-79 | the timestamp read back from an archive name is the ISO string with every `:`, `.` and `-` turned into `:` |
| Backup.TimestampNotRecovered | server/utils/backup.js:15-79 | an ISO string containing a hyphen is never recovered verbatim from its archive name |
| Backup.Describe | server/utils/backup.js:74-81 | an entry carries the file name it describes |
| Backup.Backups | server/utils/backup.js:69-88 | a failed directory read gives `[]`; otherwise the entries are exactly the described archive names of the listing, each as often, ordered by the comparator's key: later first for the date a timestamp is read as |
| Backup.TimestampHasNoHyphen | server/utils/backup.js:79 | the timestamp recovered from an archive name never contains a hyphen, so it is never an ISO date with its `-` separators |
| Backup.ListedInDirectoryOrder | server/utils/backup.js:72-82 | when every recovered timestamp reads as the same date (as it does when `new Date` finds each one invalid and every comparison is NaN), the list is the listing's archive names in directory order, each described |
| Backup.VictimsInDirectoryOrder | server/utils/backup.js:93-99 | with such tied dates the victims are the archive names after the first `keepCount` in directory order |
| Backup.ListedAreBackups | server/utils/backup.js:72-81 | every listed entry is the description of an archive name in the directory |
| Backup.BackupsAreListed | server/utils/backup.js:72-81 | every archive name in the directory is listed |
| Backup.BackupsDistinct | server/utils/backup.js:71-81 | two positions of the list never carry the same file name when the directory lists no name twice |
| Backup.Unlinked | server/utils/backup.js:101-107 | the unlink loop only removes files, and the failure it reports is one of the victims |
| Backup.UnlinkedPrefix | server/utils/backup.js:101-104 | after `k` successful unlinks the loop goes on with the rest, those `k` names gone |
| Backup.UnlinkedAll | server/utils/backup.js:101-104 | when every unlink succeeds exactly the victims are gone and nothing is logged |
| Backup.UnlinkedStops | server/utils/backup.js:101-108 | the first failing unlink ends the loop: earlier victims are gone, it and every later victim remain, and it is the error logged |
| Backup.UnlinkedFacts | server/utils/backup.js:101-108 | a loop that logs nothing could unlink every victim |
| Backup.UnlinkedKeeps | server/utils/backup.js:101-104 | a file that is not a victim survives the loop |
| Backup.Victims | server/utils/backup.js:95-99 | nothing is removed with at most `keepCount` archives; otherwise the victims are the file names of the entries after the first `keepCount`, in list order |
| Backup.VictimsDistinct | server/utils/backup.js:99 | the victims are distinct names |
| Backup.BackupService.CreateBackup | server/utils/backup.js:11-67 | a failing `mkdir` fails and changes nothing; otherwise the directory exists, a failing table read fails and adds no file, and after the reads the archive name is added whether or not archiving succeeds; the full path is answered only on success |
| Backup.BackupService.ListBackups | server/utils/backup.js:69-88 | the answer is the listing's archive entries in the comparator's order (directory order for the timestamps the program recovers), or `[]` when the directory does not exist |
| Backup.BackupService.DeleteOldBackups | server/utils/backup.js:91-109 | the new directory and the logged failure are those of the unlink loop over the victims of the current listing; `keepCount` defaults to 10 |
| Backup.RetentionOutcome | server/utils/backup.js:91-109 | with at most `keepCount` archives nothing changes; when no unlink fails exactly the victims are gone |
| Backup.RetentionKeepsFirstListed | server/utils/backup.js:95-104 | whatever unlinks fail, the first `keepCount` listed archives are never removed |
| Backup.RetentionKeepsFirstInDirectory | server/utils/backup.js:95-104 | with tied dates, whatever unlinks fail, the first `keepCount` archive names in directory order are never removed, whether or not they are the newest |
| SettingsController.MergedSettings | server/controllers/settingsController.js:50-51 | every body member wins, every other member that the current settings spread to (none for NULL) is kept, and no other key appears |
| SettingsController.MergedSettingsIdempotent | server/controllers/settingsController.js:50-51 | sending the same settings body twice gives the same settings as sending it once |
| SettingsController.UpdatedProfile | server/controllers/settingsController.js:25-27 | the body members that name `User` columns overwrite them, every other profile column is kept, and nothing else is added |
| SettingsController.SettingsAfterUpdate | server/controllers/settingsController.js:25-27 | a body without `settings` keeps the column; a body with it stores that value as it is (`null` as NULL), so the settings spread to that value's members |
| SettingsController.ProfileReplacesSettings | server/controllers/settingsController.js:25-27 | after a profile body with a `settings` object the stored settings spread to exactly that object's members: nothing of the old settings remains |
| SettingsController.MergeAfterProfileUpdate | server/controllers/settingsController.js:25-51 | a later settings update merges its body into the object the profile update stored |
| SettingsController.UserTable.constructor | server/models/User.js:4-68 | the table holds the given users |
| SettingsController.UserTable.GetProfile | server/controllers/settingsController.js:4-19 | the user with the caller's id (1 when there is none) is answered exactly when it exists, otherwise 404 `Usuario no encontrado` |
| SettingsController.UserTable.UpdateProfile | server/controllers/settingsController.js:21-39 | a missing user gives 404 and no change; otherwise only that user changes, its profile columns from the body and its settings column as `SettingsAfterUpdate` says, and the updated user is answered |
| SettingsController.UserTable.UpdateSettings | server/controllers/settingsController.js:41-63 | a missing user gives 404 and no change; otherwise only that user's settings become the merge, and exactly the merged settings are answered |
| SettingsController.UpdateSettingsLocal | server/controllers/settingsController.js:53-55 | a settings update leaves the user's profile and every other user unchanged |
| UseApi.AsItems | client/src/hooks/useApi.js:44 | an array is kept as it is, anything else becomes the empty list |
| UseApi.ReplacedFacts | client/src/hooks/useApi.js:70-72 | the list keeps its length; items with the id become the answer, all others stay in place; repeating the same update changes nothing more |
| UseApi.RemovedFacts | client/src/hooks/useApi.js:85 | an item remains exactly when it was there and has another id, in the same order; a list without the id is unchanged |
| UseApi.Crud.constructor | client/src/hooks/useApi.js:35-37 | no items, loading, no error |
| UseApi.Crud.LoadData | client/src/hooks/useApi.js:39-52 | because the promise is not awaited before `Array.isArray`, the items always become empty, loading ends and there is no error, whatever the service returns |
| UseApi.Crud.Create | client/src/hooks/useApi.js:54-65 | a created item goes to the front of the list and is returned; a failure leaves the list and is passed on |
| UseApi.Crud.Update | client/src/hooks/useApi.js:67-80 | on success the items with the id are replaced by the answer and it is returned; a failure leaves the list and is passed on |
| UseApi.Crud.Remove | client/src/hooks/useApi.js:82-92 | items with the id are dropped only after a successful delete; a failure leaves the list and is passed on |
| UseApi.CeilDiv | client/src/hooks/useApi.js:113 | the least number of pages of that size that hold every item, 0 exactly for no items |
| UseApi.Pagination.constructor | client/src/hooks/useApi.js:110-111 | the first page, in a valid state; the page size defaults to 10 |
| UseApi.Pagination.GoToPage | client/src/hooks/useApi.js:117-121 | the page moves exactly when the target is between 1 and the number of pages, and the state stays valid |
| UseApi.Pagination.NextPage | client/src/hooks/useApi.js:123-125 | one page on exactly when there is a next page, otherwise no move |
| UseApi.Pagination.PrevPage | client/src/hooks/useApi.js:127-129 | one page back exactly when there is a previous page, otherwise no move |
| UseApi.Pagination.Reset | client/src/hooks/useApi.js:131-133 | back to page 1 |
| UseApi.Pagination.PageFacts | client/src/hooks/useApi.js:113-144 | a valid page starts at an existing item when there are items, and there is a next page exactly when items remain after this page's end |
| UseApi.FilterState.constructor | client/src/hooks/useApi.js:149-150 | the filters start as the initial ones |
| UseApi.FilterState.UpdateFilter | client/src/hooks/useApi.js:152-154 | that key takes the value and every other key keeps its value |
| UseApi.FilterState.UpdateFilters | client/src/hooks/useApi.js:156-158 | the new members win and every other member stays |
| UseApi.FilterState.ResetFilters | client/src/hooks/useApi.js:160-162 | the filters are the initial ones again |
| UseApi.FilterState.ClearFilter | client/src/hooks/useApi.js:164-170 | that key is gone and every other key keeps its value |
| Maps.Overlay | client/src/hooks/useApi.js:157 | the keys are those of both maps; the top map's values win and the rest come from the base |
| Maps.Erase | client/src/hooks/useApi.js:166-167 | the key is removed and every other member is kept |
| Maps.OverlayIdempotent | client/src/hooks/useApi.js:157 | applying the same overlay twice is applying it once |
| MediaUpload.Rejection | client/src/components/common/MediaUpload.jsx:51-69 | a file is refused exactly when its type is not accepted or it is larger than the limit; the type error comes first, then the size error |
| MediaUpload.KindOf | client/src/components/common/MediaUpload.jsx:92 | an image preview exactly for `image/` types |
| MediaUpload.LastRejectionExact | client/src/components/common/MediaUpload.jsx:50-70 | an error is left exactly when some file is refused, and it is the error of the last refused file (every later file passes) |
| MediaUpload.LastRejectionNone | client/src/components/common/MediaUpload.jsx:50-70 | no error is left exactly when every file passes |
| MediaUpload.LastRejectionLast | client/src/components/common/MediaUpload.jsx:59-67 | a remaining error belongs to a refused file after which every file passes |
| MediaUpload.CheckStep | client/src/components/common/MediaUpload.jsx:59-69 | one more file either joins the accepted list or becomes the latest error, with the type check first |
| MediaUpload.RefreshedFacts | client/src/components/common/MediaUpload.jsx:84-106 | once the reads finish, every file has its preview of the right kind, and every preview belongs to an old preview or a read file |
| MediaUpload.AcceptedFiles | client/src/components/common/MediaUpload.jsx:50-70 | the accepted files are exactly those passing both checks, in their order |
| MediaUpload.RemovedFileGone | client/src/components/common/MediaUpload.jsx:109 | the removed file is gone from the selection and the others keep their order |
| MediaUpload.Uploader.constructor | client/src/components/common/MediaUpload.jsx:6-17 | the options as given, with no selection, no previews and no error |
| MediaUpload.Uploader.HandleFiles | client/src/components/common/MediaUpload.jsx:47-82 | the error becomes the last refusal or is cleared; with accepted files, the selection is replaced or extended by them in order, the previews are refreshed when shown, and `onFileSelect` gets the list or the first file; with none, only the error changes |
| MediaUpload.Uploader.CheckFiles | client/src/components/common/MediaUpload.jsx:50-70 | the accepted files are the filter of the input, and the error is that of the last refused file, or is unchanged when no file is refused |
| MediaUpload.Uploader.GeneratePreviews | client/src/components/common/MediaUpload.jsx:84-106 | the previews are refreshed with each file in order; the selection and the error stay |
| MediaUpload.Uploader.RemoveFile | client/src/components/common/MediaUpload.jsx:108-114 | the file leaves the selection and the previews, the error is cleared, and `onFileSelect` gets the rest or null |
| BabyProfile.Saved | client/src/components/pages/BabyProfile.jsx:93-103 | the saved memory takes the form's fields and the given id, and keeps the draft's tags, favourite flag and image |
| BabyProfile.SaveExisting | client/src/components/pages/BabyProfile.jsx:105-106 | saving an edited memory keeps the list's length and every id; the entries with its id take the form's values |
| BabyProfile.SaveNew | client/src/components/pages/BabyProfile.jsx:107-108 | a new memory goes in front with id `now` and the rest of the list is unchanged |
| BabyProfile.DeleteMemoryFacts | client/src/components/pages/BabyProfile.jsx:115-119 | without confirmation nothing changes; with it, exactly the memories with another id remain, in order |
| BabyProfile.ToggleFavoriteFacts | client/src/components/pages/BabyProfile.jsx:121-125 | only memories with the id change, only in the favourite flag; toggling twice gives the list back |
| BabyProfile.FilteredMemoriesFacts | client/src/components/pages/BabyProfile.jsx:127-132 | a memory is shown exactly when it is in the category (any for `Todos`) and its lowercased title or text contains the lowercased term; list order is kept |
| BabyProfile.FilteredMemoriesAll | client/src/components/pages/BabyProfile.jsx:127-132 | `Todos` with an empty search shows every memory |
| BabyProfile.AddTag | client/src/components/pages/BabyProfile.jsx:134-141 | only the tags may change, and only by appending the tag |
| BabyProfile.AddTagKeepsDistinct | client/src/components/pages/BabyProfile.jsx:134-141 | distinct tags stay distinct, a non-empty tag ends up present, and an empty or present tag changes nothing |
| BabyProfile.RemoveTag | client/src/components/pages/BabyProfile.jsx:143-148 | only the tags change |
| BabyProfile.RemoveTagFacts | client/src/components/pages/BabyProfile.jsx:143-148 | a tag remains exactly when it was there and differs from the removed one, in order, and distinct tags stay distinct |
| PhotoGallery.FilteredPhotosFacts | client/src/components/pages/PhotoGallery.jsx:62-68 | a photo is shown exactly when it is in the category (any for `Todos`) and its lowercased title, description or some tag contains the lowercased term; gallery order is kept |
| PhotoGallery.FilteredPhotosAll | client/src/components/pages/PhotoGallery.jsx:62-68 | `Todos` with an empty search shows every photo |
| PhotoGallery.ToggleFavoriteFacts | client/src/components/pages/PhotoGallery.jsx:70-74 | only photos with the id change, only in the favourite flag; toggling twice gives the gallery back |
| VideoGallery.VideosFacts | client/src/components/pages/VideoGallery.jsx:13-17 | the list holds exactly the video memories, each as often as in the input, newest first |
| VideoGallery.FilteredVideosFacts | client/src/components/pages/VideoGallery.jsx:19-22 | `Todos` shows every video; any other category shows exactly its videos, in order |
| VideoGallery.JsRemainder | client/src/components/pages/VideoGallery.jsx:29 | the remainder is smaller than the divisor in size, and agrees with the mathematical one for non-negative numbers |
| VideoGallery.SecondsPart | client/src/components/pages/VideoGallery.jsx:30 | the seconds are always two digits that read back as the same number |
| VideoGallery.FormatPositive | client/src/components/pages/VideoGallery.jsx:26-31 | a positive duration is whole minutes, a colon and the zero-padded remaining seconds |
| VideoGallery.FormatDurationRoundTrip | client/src/components/pages/VideoGallery.jsx:26-31 | every positive duration renders as `m:ss`, and reading that back gives the same number of seconds |
| VideoGallery.FormatDurationEmpty | client/src/components/pages/VideoGallery.jsx:27 | the rendering is empty exactly for a missing or zero duration |
| Welcome.OnlyFinalSlideIsLast | client/src/components/pages/Welcome.jsx:10-77 | of the five slides, exactly the final one is marked last |
| Welcome.Carousel.constructor | client/src/components/pages/Welcome.jsx:7-8 | the first slide, visible |
| Welcome.Carousel.NextSlide | client/src/components/pages/Welcome.jsx:79-83 | one slide on, except on the last slide; the index stays on an existing slide |
| Welcome.Carousel.PrevSlide | client/src/components/pages/Welcome.jsx:85-199 | one slide back, except on the first one, where the button is disabled; the index stays on an existing slide |
| Welcome.Carousel.GoToSlide | client/src/components/pages/Welcome.jsx:91-142 | a dot moves to its own slide |
| Welcome.Carousel.Complete | client/src/components/pages/Welcome.jsx:95-101 | the carousel is hidden and the slide is kept |
| Welcome.Carousel.ShowsCompleteOnFinal | client/src/components/pages/Welcome.jsx:212-230 | the complete button replaces next exactly on the final slide |
| MobileNavigation.MenusDisjoint | client/src/components/layout/MobileNavigation.jsx:20-36 | no page is in both the main bar and the more panel |
| MobileNavigation.MenusCoverSidebar | client/src/components/layout/MobileNavigation.jsx:20-36 | together the two menus offer exactly the sidebar's eleven pages |
| MobileNavigation.Navigator.constructor | client/src/components/layout/MobileNavigation.jsx:17-18 | the page as given, with the panel closed |
| MobileNavigation.Navigator.HandleItemClick | client/src/components/layout/MobileNavigation.jsx:38-45 | `Más` toggles the panel and keeps the page; any other item becomes the page and closes the panel; the new state is `AfterClick` of the old one |
| MobileNavigation.Navigator.ClickOverlay | client/src/components/layout/MobileNavigation.jsx:50-53 | the panel closes and the page stays |
| MobileNavigation.AfterClick | client/src/components/layout/MobileNavigation.jsx:38-45 | a page click selects that page and closes the panel; `Más` keeps the page |
| MobileNavigation.ClickFacts | client/src/components/layout/MobileNavigation.jsx:38-45 | two clicks on `Más` restore the state, and repeating a page click changes nothing |
| JournalController.GetAllEntries | server/controllers/journalController.js:5-32 | the answer is the table's rows that are wanted (the user's own; whose title or text contains a non-empty `search`; dated between both bounds when both are given; of the `mood` unless it is absent or `Todos`), newest first |
| JournalController.GetAllEntriesExact | server/controllers/journalController.js:10-31 | a row is in the answer exactly when it is in the table and wanted, and the answer's dates never increase |
| Store.SelectNewestFirst | server/controllers/journalController.js:29-31 | a selection ordered by `date` descending holds exactly the table's wanted rows, with dates never increasing |
| JournalController.ListsOf | server/controllers/journalController.js:47-50 | both list members are normalised (an array as it is, a string parsed with an empty string read as `[]`, anything else `[]`), and the pair fails exactly when one of the strings does not parse |
| JournalController.NewEntry | server/models/Journal.js:10-48 | a row is built exactly when `title`, `text` and `date` are present, with the normalised lists; `mood` defaults to `Neutral` and `energy` to 5 |
| JournalController.CreateEntry | server/controllers/journalController.js:41-58 | 500 `Error creando entrada` and no change when a list does not parse or a column is missing; otherwise 201 with a new row owned by the requesting user and appended to the table |
| JournalController.UpdateEntry | server/controllers/journalController.js:61-88 | 500 `Error actualizando entrada` and no change when a list does not parse; otherwise the user's rows with that id take the body with its normalised lists, 404 `Entrada no encontrada` exactly when there were none, else 200 with such a row |
| JournalController.DeleteEntry | server/controllers/journalController.js:90-108 | the user's rows with that id are removed; 404 `Entrada no encontrada` exactly when there were none, otherwise 200 `Entrada eliminada correctamente` |
| MedicalController.GetAllRecords | server/controllers/medicalController.js:5-25 | the answer is the table's rows that are wanted (the user's own; of the `type` unless it is absent or `Todos`; dated between both bounds when both are given), newest first |
| MedicalController.GetAllRecordsExact | server/controllers/medicalController.js:10-24 | a row is in the answer exactly when it is in the table and wanted, and the answer's dates never increase |
| MedicalController.ByTypeExact | server/controllers/medicalController.js:91-99 | a row is in the answer exactly when it is in the table, the user's and of exactly that type (`Todos` taken literally), and the answer's dates never decrease |
| MedicalController.NewRecord | server/models/MedicalRecord.js:10-37 | a row is built exactly when `date`, `type` and `value` are present; `isNormal` defaults to true |
| MedicalController.CreateRecord | server/controllers/medicalController.js:34-48 | 500 `Error creando registro` and no change when a required column is missing; otherwise 201 with a new row owned by the requesting user and appended to the table |
| MedicalController.UpdateRecord | server/controllers/medicalController.js:50-69 | the user's rows with that id take the body; 404 `Registro no encontrado` exactly when there were none; otherwise 200 with such a row |
| MedicalController.DeleteRecord | server/controllers/medicalController.js:71-89 | the user's rows with that id are removed; 404 `Registro no encontrado` exactly when there were none, otherwise 200 `Registro eliminado correctamente` |
| MemoryController.ImagePathMissesImagesDir | server/controllers/memoryController.js:53 | the recorded image path `/uploads/<file>` is never the `/uploads/images/<file>` the upload middleware stores images under |
| MemoryController.GetAllMemories | server/controllers/memoryController.js:5-36 | the answer is the table's rows that are wanted (the user's own; of the `category` unless it is absent or `Todos`; whose title or text contains a non-empty `search`; dated between both bounds when both are given; favourites only when `favorite` is `'true'`), newest first |
| MemoryController.GetAllMemoriesExact | server/controllers/memoryController.js:10-35 | a row is in the answer exactly when it is in the table and wanted, and the answer's dates never increase |
| MemoryController.EmptyQueryAnswersAllOwn | server/controllers/memoryController.js:10-31 | with no query parameters a row is wanted exactly when it is the user's |
| MemoryController.NewMemory | server/models/Memory.js:10-53 | a row is built exactly when `title`, `text`, `date` and `category` are present, with the normalised tags and the image path of the uploaded file (none without one); `mood` defaults to `Neutral`, `isFavorite` to false |
| MemoryController.CreateMemory | server/controllers/memoryController.js:45-62 | 500 `Error creando memoria` and no change when the tags do not parse or a column is missing; otherwise 201 with a new row owned by the requesting user and appended to the table |
| MemoryController.MemoryPatchEffect | server/controllers/memoryController.js:69-77 | an update always writes `tags` (an absent list empties it); the image changes only when a file came; video, media type and duration never change |
| MemoryController.UpdateMemory | server/controllers/memoryController.js:64-93 | 500 `Error actualizando memoria` and no change when the tags do not parse; otherwise the user's rows with that id are patched, 404 `Memoria no encontrada` exactly when there were none, else 200 with such a row |
| MemoryController.DeleteMemory | server/controllers/memoryController.js:95-113 | the user's rows with that id are removed; 404 `Memoria no encontrada` exactly when there were none, otherwise 200 `Memoria eliminada correctamente` |
| MemoryController.StatsOf | server/controllers/memoryController.js:120-129 | the three counts are those of the user's rows, of the user's rows with an image, and of the user's favourite rows; neither sub-count outnumbers the total |
| Request.EffectiveUser | server/controllers/appointmentController.js:8 | a present non-zero user id is used as it is; a missing user or the falsy id 0 becomes user 1, so the owner is never 0 |
| Request.RangeOf | server/controllers/appointmentController.js:20-24 | a date range is applied exactly when both `startDate` and `endDate` are given (present and non-empty) |
| Request.NormalizedList | server/controllers/journalController.js:47-50 | an array is kept; an absent or non-string member and the empty string give `[]`; the request fails exactly when a non-empty string does not parse |
| Store.FindByPk | server/controllers/appointmentController.js:67 | the row found has that key and is in the table; nothing is found exactly when no row has that key |
| Store.Table.Create | server/controllers/appointmentController.js:46 | the new row gets the next key and is appended; the keys stay distinct and below the next one |
| Store.Table.Update | server/controllers/appointmentController.js:59-61 | the rows matching key and owner are patched, the count of them is answered, and the table stays valid |
| Store.Table.Destroy | server/controllers/appointmentController.js:80-82 | the rows matching key and owner are removed, the count of them is answered, and the table stays valid |
| Store.UpdateOwned | server/controllers/appointmentController.js:59-68 | the update handlers' shared steps: 404 exactly when no row matched; otherwise 200 with a row of the new table that is a matched old row with the patch applied |
| Store.DestroyOwned | server/controllers/appointmentController.js:80-88 | the delete handlers' shared steps: the matching rows are removed, then 404 when none were, else the success message |
| Store.CountOwnedZero | server/controllers/appointmentController.js:63 | `updatedRows === 0` exactly when no row has both that key and that owner |
| Store.PatchedFacts | server/controllers/appointmentController.js:59-61 | an update keeps length, order, keys and owners, changes only the matching rows' data by the patch, keeps keys distinct, and changes nothing when no row matches |
| Store.WithoutFacts | server/controllers/appointmentController.js:80-82 | a destroy removes exactly the matching rows, keeps the others in order, and the removed count plus the remaining rows is the old length |
| Store.SelectFacts | server/controllers/appointmentController.js:26-29 | `findAll` answers exactly the rows passing `where`, each as often as in the table, sorted by the order |
| TaskController.CollationIsTextOrder | server/models/Task.js:26-29 | the rank used for `priority` follows the text order of the stored names (`Alta` < `Baja` < `Media`), and equal ranks are equal priorities |
| TaskController.GetAllTasks | server/controllers/taskController.js:5-38 | the answer is the table's rows that are wanted (the user's own; of the `category` unless it is absent or `Todos`; completed exactly when `completed` is `'true'`, if present; of the `priority` unless it is absent or `Todas`; whose text or notes contain a non-empty `search`), in task order |
| TaskController.DueKeyOrder | server/controllers/taskController.js:36 | for due dates in ascending order, a missing date (NULL) comes before every date and dates ascend |
| TaskController.TaskOrderMeaning | server/controllers/taskController.js:33-37 | two rows in sort-key order are pending before completed, then by descending priority text, then with no due date first and ascending due dates |
| TaskController.GetAllTasksExact | server/controllers/taskController.js:10-37 | a row is in the answer exactly when it is in the table and wanted, and every earlier answer row is in task order with every later one |
| TaskController.NewTask | server/models/Task.js:10-37 | a row is built exactly when `text` is present; `priority` defaults to `Media`, `completed` to false, and no completion date is set |
| TaskController.CreateTask | server/controllers/taskController.js:47-61 | 500 `Error creando tarea` and no change when `text` is missing; otherwise 201 with a new row owned by the requesting user and appended to the table |
| TaskController.CompletedDateNeverStamped | server/controllers/taskController.js:68-74 | since the compared values are a copy and its original, the rule never writes the current date: it clears the date for `completed: false` and otherwise leaves it |
| TaskController.CompletedDateNeedsDifferentSides | server/controllers/taskController.js:70-71 | the date would be stamped only if the copy said `true` while the body did not |
| TaskController.UpdateTask | server/controllers/taskController.js:63-90 | the user's rows with that id take the body and the `completedDate` rule's outcome; 404 `Tarea no encontrada` exactly when there were none, else 200 with such a row |
| TaskController.CompletingKeepsOldDate | server/controllers/taskController.js:68-78 | an update marking a task completed leaves it completed with its previous completion date |
| TaskController.DeleteTask | server/controllers/taskController.js:92-110 | the user's rows with that id are removed; 404 `Tarea no encontrada` exactly when there were none, otherwise 200 `Tarea eliminada correctamente` |
| TaskController.StatsOf | server/controllers/taskController.js:112-119 | total and completed count the user's rows and completed rows; `pendingTasks`, their difference, is never negative and is the number of the user's open tasks |
| Paths.Basename | server/middleware/upload.js:74 | the base name has no `/`, ends the path, and is the whole path when it has no `/` |
| Paths.ExtName | server/middleware/upload.js:29 | the extension is empty or a `.` followed by no other `.` and no `/`, and it ends the path |
| Paths.ExtNameOfStemAndExt | server/middleware/upload.js:29-31 | a non-empty stem without `/` or `.` followed by an extension has exactly that extension |
| Paths.BasenameOfJoin | server/middleware/upload.js:74 | the base name of `dir/name` is `name` when `name` has no `/` |
| Upload.DestinationOf | server/middleware/upload.js:8-18 | images go to `uploads/images`, other videos to `uploads/videos`, everything else to `uploads/other`, each exactly in its case |
| Upload.FilenamePrefix | server/middleware/upload.js:30 | `video-` exactly for video types, `image-` for every other type |
| Upload.FileFilter | server/middleware/upload.js:36-43 | a file is accepted exactly when its type is an image or a video type; otherwise it is refused with `Solo se permiten archivos de imagen y video` |
| Upload.AcceptedNeverOther | server/middleware/upload.js:8-43 | a file is accepted exactly when its folder is not `uploads/other` |
| Upload.StoredStem | server/middleware/upload.js:28-31 | the stored name's stem is non-empty and has no `/` or `.` |
| Upload.StoredFilenameKeepsExtension | server/middleware/upload.js:27-32 | the stored name is the stem followed by the original extension, keeps that extension, and has no `/` |
| Upload.OptimizedPathReplacesExtension | server/middleware/upload.js:61 | when nothing before the extension contains a `.`, the output path is the input with `_optimized.jpg` in place of the extension |
| Upload.OptimizedPathWithoutExtension | server/middleware/upload.js:61 | without an extension the empty pattern matches at the start, so `_optimized.jpg` is put in front of the whole path |
| Upload.OptimizedStoredFile | server/middleware/upload.js:27-74 | for a stored file with an extension in a folder without `.`, the optimised copy is `<stem>_optimized.jpg` in the same folder, and that is its base name |
| Upload.OptimizedStoredImage | server/middleware/upload.js:12-74 | in particular an uploaded image with an extension becomes `uploads/images/<stem>_optimized.jpg` |
| Upload.OptimizedOnDisk | server/middleware/upload.js:59-79 | optimising an image that is on disk succeeds exactly when resizing does, and then the copy replaces the original |
| Upload.UploadDisk.Destination | server/middleware/upload.js:8-26 | the folder for the type, created when absent; files do not change |
| Upload.UploadDisk.Receive | server/middleware/upload.js:7-51 | a refused type leaves the disk alone; an accepted one creates its folder; a file over 50 MB is not kept; otherwise the file is stored under its folder with the generated name |
| Upload.UploadDisk.OptimizeImage | server/middleware/upload.js:54-80 | without a file or for a non-image nothing happens; otherwise the disk is the outcome of writing the copy and unlinking the original, no error exactly when both succeed, and only then do `path` and `filename` name the copy |
| Validation.CheckItems | server/middleware/validation.js:10 | a reported item problem is a non-string or empty item of that key |
| Validation.CheckItemsExact | server/middleware/validation.js:10 | no item problem is reported exactly when every item from the start position on is a non-empty string |
| Validation.CheckKind | server/middleware/validation.js:3-54 | a reported problem names the key being checked |
| Validation.CheckKindExact | server/middleware/validation.js:3-54 | a present value raises no problem exactly when it is admitted by its kind (allowed values, type, emptiness, length, integer and bounds) |
| Validation.CheckRuleExact | server/middleware/validation.js:3-54 | a declared key raises no problem exactly when it is absent and optional, or present and admitted |
| Validation.CheckRulesExact | server/middleware/validation.js:3-54 | the declared keys raise no problem exactly when every rule of the schema is satisfied |
| Validation.Undeclared | server/middleware/validation.js:3 | a key reported as not allowed is not declared by the schema |
| Validation.UndeclaredExact | server/middleware/validation.js:3 | no key is reported as not allowed exactly when every member of the body is declared |
| Validation.FirstIssueExact | server/middleware/validation.js:57-58 | `validate` reports no error exactly for an object whose declared keys satisfy their rules and which has no other key |
| Validation.FirstIssueIsFirst | server/middleware/validation.js:61 | when every earlier declared key is fine and one fails, the reported detail is that key's problem |
| Validation.UndeclaredKeyRefused | server/middleware/validation.js:3 | a body with an undeclared member is always refused |
| Validation.Subject | server/middleware/validation.js:61 | the subject of a detail starts with the quoted key |
| Validation.Message | server/middleware/validation.js:61 | every detail message starts with the quoted offending key |
| Validation.Validate | server/middleware/validation.js:56-65 | `next()` exactly for conforming bodies; otherwise 400 with the validator's fixed error and the first problem's message as details |
| Validation.ValidateMemory | server/middleware/validation.js:56-65 | `next()` exactly for bodies conforming to the memory schema; otherwise 400 `Datos de memoria inválidos` |
| Validation.ValidateJournal | server/middleware/validation.js:67-76 | `next()` exactly for bodies conforming to the journal schema; otherwise 400 `Datos de entrada de diario inválidos` |
| Validation.ValidateTask | server/middleware/validation.js:78-87 | `next()` exactly for bodies conforming to the task schema; otherwise 400 `Datos de tarea inválidos` |
| Validation.ValidateAppointment | server/middleware/validation.js:89-98 | `next()` exactly for bodies conforming to the appointment schema; otherwise 400 `Datos de cita inválidos` |
| Validation.ValidateMedicalRecord | server/middleware/validation.js:100-109 | `next()` exactly for bodies conforming to the medical-record schema; otherwise 400 `Datos de registro médico inválidos` |
| Validation.MemoryDemands | server/middleware/validation.js:3-8 | an accepted memory has a title of 1 to 200 characters, a text of 1 to 2000, a non-null date, one of the six categories, and no mood or one of the five moods |
| Validation.JournalDemands | server/middleware/validation.js:15-20 | an accepted journal entry has a title of 1 to 200 characters, a text of 1 to 5000, no mood or one of the six moods, and no energy or an integer from 1 to 10 |
| Validation.TaskDemands | server/middleware/validation.js:27-33 | an accepted task has a text of 1 to 500 characters, no priority or one of the three, and no estimated cost or a number at least 0 |
| Validation.TaskNullDueDate | server/middleware/validation.js:30 | a task whose due date is `null` is accepted |
| Validation.AppointmentDemands | server/middleware/validation.js:36-41 | an accepted appointment has a title of 1 to 200 characters and no type or one of the five types |
| Validation.MedicalRecordDemands | server/middleware/validation.js:46-52 | an accepted record has one of the six types, a non-empty value, and no week or an integer from 1 to 42 |

## Left out

- The backup archive itself is not modelled: the zip stream, compression, `data.json` and the copied uploads folder. Only the choice of name and the effect on the set of backup files are. `mkdir`, the table reads, `readdir` and `unlink` are outcomes given to the model.
- The cron schedule and process start-up that call the backups are not part of this model.
- Image resizing and JPEG encoding by `sharp` are not modelled, and neither are its size and quality options. The resize is a success flag. Multipart parsing by `multer` is not modelled: the model starts from the file multer reports.
- The database is not modelled: SQL, `LIKE` and aggregates. Each table is a sequence of rows, so `LIKE` wildcards and SQLite's case-insensitive `LIKE` for ASCII letters are not captured. Search is plain substring containment.
- Journal `getStats` (count, mood grouping, floating-point average energy) is not modelled. Memory `categoriesStats` and the task `categoryStats` and `totalEstimatedCost` are not modelled either. They are SQL grouping and floating point. The other counts of memory and task `getStats` are modelled.
- Model-level validation in `server/models/*.js` is not modelled, for example the journal `energy` range in `Journal.js`. Only the Joi schemas of the validation middleware are.
- Validation leaves out Joi's string-to-number and string-to-boolean conversion details, and its other error messages, beyond the conversions taken as parameters.
- `JSON.parse` of tags or symptoms is a parameter. A parse that yields a non-array value is treated like any other parsed list. A parse that throws is modelled as the 500 reply of `createEntry`, `updateEntry`, `createMemory` and `updateMemory`.
- On update, body members named `id` or `userId` are not modelled. The patch datatypes carry only the entity's own columns.
- SettingsController.UpdatedProfile: writes only the `User` profile columns and drops other body members, as Sequelize's `update` does. The `settings` column is written by `SettingsAfterUpdate`. That Sequelize reports no updated rows when the body changes nothing is not modelled.
- The controllers' 500 replies are modelled for a missing required column on create and for a list that does not parse. A 500 for any other database exception is not modelled, and neither are the `console` logs.
- UseApi.Crud.LoadData: a synchronous throw from `service.getAll`/`service.get` reaching the `catch` is not modelled. The error text, and toasts in general, are left out.
- UseApi.Pagination.constructor: requires a positive `itemsPerPage`, since a zero page size gives `Infinity`/`NaN` arithmetic in JavaScript. `totalItems` is fixed for the life of the hook state, whereas React would recompute on every render.
- MediaUpload.Uploader.GeneratePreviews: assumes the `FileReader` reads finish in the order they were started. Data URLs are not modelled.
- `formatFileSize` is not modelled, because it is floating point. Drag-and-drop highlighting state is not modelled either, because it is presentation only.
- BabyProfile.Saved: the `currentMemory.tags || []` fallback for a draft without tags is not modelled. A draft always has a tag list.
- Welcome.Carousel.Complete: the `localStorage` flag and the delayed `onComplete` callback are not modelled. They are a browser store and a timer.
- The HTTP services, interceptors, routes, Express middleware and presentational components are not part of this model.
- Validation counts string lengths in Dafny characters, one per code point. Joi counts UTF-16 code units, so a text with characters outside the Basic Multilingual Plane can be within a `max` length in the model and over it in the program. The same holds for the indices that spreading a string gives in `SettingsController.Spread`.
- Json.Get: a member list with a repeated name is read at its first occurrence. A body parsed by `JSON.parse` keeps only the last one, so such a list does not arise from a parsed request.
- Upload: the folders are the relative `uploads/images`, `uploads/videos` and `uploads/other`. The program joins them to the server's own directory (`path.join(__dirname, '../uploads/images')`). `OptimizedStoredImage` relies on the folder containing no `.`, which an installation path with a `.` in it would not satisfy.
