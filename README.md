# figma-market-admin, modelled in Dafny

The admin console of a design marketplace: staff list, filter, create, edit
and delete designs and blog posts. Each form collects an image (thumbnail and
previews) that can be cropped. On submit, it checks its fields and sends a
multipart body. The two list pages keep their filters in the URL, page through
results and select rows for bulk deletion. Two hooks hold the lists fetched from
the server and update them after each call.

This project models the logic of those components, hooks, services and
helpers, and proves what they promise:

- **Image intake.** The image validator and the uploader's ingest pass.
- **Cropping.** The cropper's ratio and lock state.
- **The two forms.** Their validation rules and the multipart body read back key by key.
- **URLs.** The list pages' URL round trip, page windows and selection.
- **Server state.** The hooks' list updates.
- **Services.** The services' progress and bulk-delete counts.
- **Header and dashboard.** The header's page title and the dashboard's figures.

Things the browser, the network or the clock decides are parameters:

- **File and canvas.** What the file reader returns for each file, and what the canvas encodes.
- **Id generator.** The id the generator hands out.
- **URL parser.** Whether the URL parser accepts a string.
- **Service calls.** How each awaited service call settled: an `Outcome` that either returned a body or threw an error value.
- **Search.** The settled debounced search text.

Stateful components and hooks are classes whose methods update their fields.
Each method's `ensures` gives the new state in terms of specification functions.
The lemmas prove the properties of those functions.

Modules, one per source file, plus shared ones:

| module | file | models |
|---|---|---|
| `Wrappers` | wrappers.dfy | `Option` (null/undefined) |
| `Strings` | strings.dfy | `trim`, ASCII `toLowerCase`, `startsWith`, `split`, `join`, `toString`/`parseInt` of page numbers |
| `Collections` | collections.dfy | the id-keyed `filter`/`map` list updates |
| `Helpers` | helpers.dfy | src/utils/helpers.js |
| `Uploader` | uploader.dfy | src/components/design/ImageUploader.jsx |
| `Cropper` | cropper.dfy | src/components/design/ImageCropper.jsx |
| `DesignForm` | design_form.dfy | src/components/design/DesignForm.jsx |
| `BlogForm` | blog_form.dfy | src/components/blog/BlogForm.jsx |
| `Selection` | selection.dfy | row selection shared by both list pages |
| `DesignsList` | designs_list.dfy | src/pages/DesignsList.jsx |
| `BlogsList` | blogs_list.dfy | src/pages/BlogsList.jsx |
| `Services` | services.dfy | src/services/design.service.js, src/services/blog.service.js |
| `DesignsHook` | use_designs.dfy | src/hooks/useDesigns.js |
| `BlogsHook` | use_blogs.dfy | src/hooks/useBlogs.js |
| `Layout` | layout.dfy | src/components/layout/MainLayout.jsx |
| `Dashboard` | dashboard.dfy | src/pages/Dashboard.jsx |

## Model

| member | source | states |
|---|---|---|
| Strings.Trim | src/components/design/DesignForm.jsx:48 | `trim()` leaves no white space at either end |
| Strings.TrimIsSlice | src/components/design/DesignForm.jsx:95 | trimming only removes characters: the result is a slice of the input |
| Strings.TrimmedIsFixed | src/components/design/DesignForm.jsx:106 | an already trimmed string is left as it is |
| Strings.ToLower | src/components/design/DesignForm.jsx:106 | lower-casing keeps the length |
| Strings.LowerFixesLowercase | src/utils/helpers.js:157 | a string without capitals is unchanged by `toLowerCase` |
| Strings.Split | src/components/design/DesignForm.jsx:105 | `split(',')` always yields at least one piece |
| Strings.SplitPiecesLackSeparator | src/components/design/DesignForm.jsx:105 | no piece of a split contains the separator |
| Strings.SplitAtSeparator | src/components/design/DesignForm.jsx:105 | splitting distributes over an occurrence of the separator |
| Strings.NatToString | src/pages/DesignsList.jsx:82 | a page number prints as a non-empty run of decimal digits |
| Strings.ParseNatToString | src/pages/DesignsList.jsx:45 | `parseInt` of a printed page number gives the number back |
| Strings.Utf16Length | src/components/blog/BlogForm.jsx:69 | `length` counts between one and two code units per character |
| Strings.Utf16LengthBounds | src/components/blog/BlogForm.jsx:69 | `length` is the character count exactly when no character is astral, and twice it when all are |
| Collections.RemoveById | src/hooks/useDesigns.js:80 | `filter(x => x._id !== id)` never lengthens the list |
| Collections.RemoveByIdMembers | src/hooks/useDesigns.js:80 | exactly the entries whose id differs survive a removal |
| Collections.RemoveByIdAppend | src/components/design/ImageUploader.jsx:157 | removal distributes over concatenation, so survivors keep their order |
| Collections.RemoveByIdAbsent | src/components/design/ImageUploader.jsx:157 | removing an id no entry carries changes nothing |
| Collections.RemoveAllIds | src/hooks/useDesigns.js:97 | `filter(x => !ids.includes(x._id))` never lengthens the list |
| Collections.RemoveAllIdsMembers | src/hooks/useDesigns.js:97 | exactly the entries whose id is not listed survive a bulk removal |
| Collections.RemoveAllIdsIsRemoveEach | src/hooks/useDesigns.js:97 | a bulk removal leaves the same list as deleting the ids one at a time |
| Collections.RemoveAllIdsAfterRemoveById | src/hooks/useBlogs.js:122 | deleting one id, then the rest, is the bulk removal of all of them |
| Collections.RemoveAllIdsAppend | src/hooks/useBlogs.js:122 | bulk removal distributes over concatenation |
| Collections.RemoveAllIdsNone | src/hooks/useBlogs.js:122 | a bulk removal of no ids changes nothing |
| Collections.ReplaceById | src/hooks/useDesigns.js:61-63 | `map(d => d._id === id ? r : d)` keeps the length, replaces every matching entry and keeps every other |
| Collections.RemoveAfterReplace | src/hooks/useBlogs.js:82-84 | replacing an entry and then deleting its id is the same as deleting it |
| Helpers.ImageErrors | src/utils/helpers.js:71-96 | no file gives only "No file selected"; otherwise the type error is reported exactly when the type is not allowed, the size error exactly when the file is larger than the limit, type before size, and no error exactly when both hold |
| Helpers.ValidateImage | src/utils/helpers.js:71-96 | the pushed errors are those rules, and `valid` holds exactly when there are none |
| Helpers.DefaultValidation | src/utils/helpers.js:72-75 | without options a file passes exactly when it is JPEG, PNG or WebP of at most 10 MiB |
| Helpers.TruncateText | src/utils/helpers.js:40-44 | a falsy text gives "", a text within the length is returned as is, and a longer one becomes its first `length` characters plus "..." |
| Helpers.GetErrorMessage | src/utils/helpers.js:121-126 | a thrown string is its own message; else the server's message, else the error's own, else "An unexpected error occurred"; the result is empty only for a thrown empty string |
| Helpers.IsEmptyMeaning | src/utils/helpers.js:146-149 | `isEmpty` holds of null and of the empty object, and an object is non-empty exactly when it has a key |
| Helpers.DropUnkept | src/utils/helpers.js:159 | only word, space and dash characters survive, and a string of such characters is unchanged |
| Helpers.Squash | src/utils/helpers.js:160 | runs of separators become one dash, so no two dashes are adjacent |
| Helpers.StripDashes | src/utils/helpers.js:161 | the result neither starts nor ends with a dash and is unchanged when the input already does not |
| Helpers.StripDashesKeeps | src/utils/helpers.js:161 | stripping dashes adds no character and no double dash |
| Helpers.Slugify | src/utils/helpers.js:155-162 | the result is a slug: lower-case letters, digits and single inner dashes |
| Helpers.SlugifyFixesSlugs | src/utils/helpers.js:155-162 | a slug is left unchanged by `slugify` |
| Helpers.SlugifyIdempotent | src/utils/helpers.js:155-162 | slugifying twice is slugifying once |
| Uploader.Examine | src/components/design/ImageUploader.jsx:80-103 | a file is admitted exactly when it validates and can be read, with a fresh id, its file and its data URL; a refused file contributes at least one error |
| Uploader.CollectFiles | src/components/design/ImageUploader.jsx:69-104 | the loop's valid files and errors are those of the ingest specification |
| Uploader.TakePrefix | src/components/design/ImageUploader.jsx:75-77 | the admitted prefix is at most the free room and is all of the list when room allows |
| Uploader.IngestAdmitsFirstAdmissible | src/components/design/ImageUploader.jsx:73-104 | the admitted images are the first `maxFiles - present` admissible files, in input order |
| Uploader.IngestWithinCapacity | src/components/design/ImageUploader.jsx:75 | the collection never grows past `maxFiles` |
| Uploader.IngestWithRoom | src/components/design/ImageUploader.jsx:73-104 | when every file fits, every admissible file is admitted and the errors are the refused files' own, in order |
| Uploader.IngestIntoFullCollection | src/components/design/ImageUploader.jsx:75-77 | a full collection admits nothing and reports only the capacity error |
| Uploader.RefusalsAreNamed | src/components/design/ImageUploader.jsx:86-103 | a refused file's errors all carry its name, so none is the capacity error |
| Uploader.IngestCapacityErrorIsLast | src/components/design/ImageUploader.jsx:75-77 | the capacity error appears only last, and only once the collection is full |
| Uploader.FillsOrNot | src/components/design/ImageUploader.jsx:73-77 | either room is left before every file, or there is a first file before which the collection is full |
| Uploader.IngestOverflow | src/components/design/ImageUploader.jsx:73-106 | when the collection fills just before the k-th file, the pass admits the admissible files before it, reports exactly their refusals in order, then the capacity error once, and examines no later file |
| Uploader.IngestNoOverflow | src/components/design/ImageUploader.jsx:73-106 | when room is left before every file, all admissible files are taken, the errors are every refusal in order, and there is no capacity error |
| Uploader.ImageUploader.constructor | src/components/design/ImageUploader.jsx:18-30 | the uploader starts with its props, the given value and no errors |
| Uploader.ImageUploader.HandleFiles | src/components/design/ImageUploader.jsx:106-114 | the errors become this pass's; `onChange` runs exactly when something was admitted, appending in multiple mode and keeping the first admitted image in single mode; the cap is kept |
| Uploader.ImageUploader.HandleRemove | src/components/design/ImageUploader.jsx:156-158 | exactly the images with that id are dropped and the cap is kept |
| Cropper.AspectValue | src/components/design/ImageCropper.jsx:13-20 | only the Free preset has no ratio; every other ratio is positive |
| Cropper.Generate | src/components/design/ImageCropper.jsx:37-80 | without a completed crop or a mounted image the result is null; with both, a canvas without a blob gives null, a drawing that throws rejects, and an encoded blob gives a JPEG file of that size, named after the element when it has a name, with the encoded data URL as preview |
| Cropper.Commit | src/components/design/ImageCropper.jsx:83-96 | a non-null generated result is delivered exactly when a callback exists, and only when the dialog closes; the dialog stays open exactly when generating throws |
| Cropper.CommitWithoutCrop | src/components/design/ImageCropper.jsx:83-96 | with nothing cropped, nothing is delivered but the dialog still closes |
| Cropper.CommitDeliversCrop | src/components/design/ImageCropper.jsx:83-96 | a cut and encoded crop reaches the callback as the canvas produced it, and the dialog closes |
| Cropper.CommitWithoutBlob | src/components/design/ImageCropper.jsx:83-96 | a canvas without a blob delivers nothing and closes; a drawing that throws delivers nothing and stays open |
| Cropper.InitialRatio | src/components/design/ImageCropper.jsx:32 | `defaultAspectRatio \|\| 4 / 3`: the given ratio unless it is missing or null, else 4:3, never Free |
| Cropper.SourceRegionInBounds | src/components/design/ImageCropper.jsx:42-55 | a crop inside the displayed image maps to a region inside the natural image |
| Cropper.ImageCropper.constructor | src/components/design/ImageCropper.jsx:23-33 | at mount the cropper is locked at the default crop with nothing completed, at the initial ratio of the prop it is mounted with |
| Cropper.ImageCropper.CurrentAspect | src/components/design/ImageCropper.jsx:130 | the aspect is the selected ratio, unconstrained while unlocked |
| Cropper.ImageCropper.RatioCaption | src/components/design/ImageCropper.jsx:215 | while locked, the caption is the selected ratio's label, never "Free" |
| Cropper.ImageCropper.TileDisabled | src/components/design/ImageCropper.jsx:177 | while the lock and the ratio agree, a tile is disabled exactly when Free is selected and the tile is another ratio: the Free tile is never disabled, and no tile is disabled while locked |
| Cropper.ImageCropper.HandleReset | src/components/design/ImageCropper.jsx:99-107 | the crop returns to 90% by 90% at (5%, 5%) |
| Cropper.ImageCropper.HandleRatioChange | src/components/design/ImageCropper.jsx:110-114 | the ratio is selected and the crop reset |
| Cropper.ImageCropper.ToggleLock | src/components/design/ImageCropper.jsx:117-127 | the lock flips; locking selects 4:3, unlocking selects Free, reading the lock as it was; the crop is reset |
| Cropper.ImageCropper.ClickTile | src/components/design/ImageCropper.jsx:168-177 | a disabled tile does nothing; Free unlocks and keeps the crop; another ratio locks, selects it and resets the crop; lock and ratio stay in step |
| Cropper.ImageCropper.OnCropChange | src/components/design/ImageCropper.jsx:196 | the live crop follows the widget |
| Cropper.ImageCropper.OnCropComplete | src/components/design/ImageCropper.jsx:197 | the completed crop is the widget's |
| Cropper.ImageCropper.HandleComplete | src/components/design/ImageCropper.jsx:83-96 | what is delivered and whether the dialog closes is the commit specification, a produced crop reaches an existing callback, and processing ends |
| DesignForm.With | src/components/design/DesignForm.jsx:37 | setting a field changes that field only |
| DesignForm.InitialFormData | src/components/design/DesignForm.jsx:20-26 | a new design starts empty with the category "web-site"; the category is never empty |
| DesignForm.ClearError | src/components/design/DesignForm.jsx:40 | clearing an error clears that key only |
| DesignForm.CollectErrors | src/components/design/DesignForm.jsx:45-72 | the error object is the one the rules specify |
| DesignForm.FormValidIff | src/components/design/DesignForm.jsx:48-74 | the form is valid exactly when title and description are not blank, a category is chosen, the URL is empty or parses, and a new design has a thumbnail and a preview |
| DesignForm.ParsedTagsAreNormal | src/components/design/DesignForm.jsx:104-107 | every parsed tag is non-empty, trimmed, lower-case and comma-free |
| DesignForm.ParseJoinedTags | src/components/design/DesignForm.jsx:104-107 | tags shown joined with ", " parse back to the same tags |
| DesignForm.ParseTagsStable | src/components/design/DesignForm.jsx:104-107 | the parsed tags, shown again, parse to themselves |
| DesignForm.CleanTagsAppend | src/components/design/DesignForm.jsx:106-107 | cleaning the tag pieces works piece by piece |
| DesignForm.ValuesForAppend | src/components/design/DesignForm.jsx:94-119 | reading a key back from a body distributes over appends |
| DesignForm.ValuesForKeyed | src/components/design/DesignForm.jsx:108 | entries appended under one key read back as the values under that key and nothing under others |
| DesignForm.TextPartsValues | src/components/design/DesignForm.jsx:95-101 | each text field is appended once under its key, the URL only when not blank |
| DesignForm.ImagePartsValues | src/components/design/DesignForm.jsx:111-120 | an edit has no image entries; a new design has the thumbnail's file, if any, and the preview files in order |
| DesignForm.AssembleValues | src/components/design/DesignForm.jsx:94-120 | every key reads back the text fields', then the tags', then the images' entries |
| DesignForm.AssembleTags | src/components/design/DesignForm.jsx:108 | the `tags[]` entries are exactly the tags, in order |
| DesignForm.SubmissionFields | src/components/design/DesignForm.jsx:95-101 | the body holds the trimmed title and description, the category, and the trimmed URL exactly when it is not blank |
| DesignForm.SubmissionTags | src/components/design/DesignForm.jsx:104-108 | the `tags[]` entries are the parsed tags |
| DesignForm.SubmissionImages | src/components/design/DesignForm.jsx:111-120 | images go only with a new design: the thumbnail's file and the files of the previews that have one |
| DesignForm.PreviewFilesSkipFileless | src/components/design/DesignForm.jsx:115-119 | a preview without a file is skipped; when all have one, all are sent in order |
| DesignForm.AppendTags | src/components/design/DesignForm.jsx:108 | the loop appends one `tags[]` entry per tag |
| DesignForm.AppendPreviewFiles | src/components/design/DesignForm.jsx:115-119 | the loop appends one `previewImages` entry per preview with a file |
| DesignForm.AppendAll | src/components/design/DesignForm.jsx:94-120 | the appends build exactly the assembled body |
| DesignForm.BuildSubmission | src/components/design/DesignForm.jsx:94-120 | the body built is the submission specification |
| DesignForm.CropReplacesInPlace | src/components/design/DesignForm.jsx:147-149 | a cropped preview takes the original's place: same length, same ids, the rest untouched |
| DesignForm.DesignFormState.constructor | src/components/design/DesignForm.jsx:20-32 | the form starts from the design's data with no images, no crop request and no errors, and mounts its one cropper locked at 4:3 |
| DesignForm.MountedCropperRatio | src/components/design/DesignForm.jsx:289-297 | mounted with no crop target, the cropper takes 4:3, not the 16:9 it is offered later for the thumbnail |
| DesignForm.DesignFormState.HandleChange | src/components/design/DesignForm.jsx:35-42 | the field is set, and its error is cleared only when one is shown |
| DesignForm.DesignFormState.Validate | src/components/design/DesignForm.jsx:45-75 | the errors become exactly the broken rules and the result says there are none |
| DesignForm.DesignFormState.HandleSubmit | src/components/design/DesignForm.jsx:88-123 | a body is handed over exactly when the form is valid, and it is the submission specification |
| DesignForm.DesignFormState.HandleCropRequest | src/components/design/DesignForm.jsx:126-129 | the image and its target are remembered; a thumbnail request offers the cropper 16:9, yet the cropper's crop, completed crop, ratio and lock stay as they were |
| DesignForm.DesignFormState.SetThumbnail | src/components/design/DesignForm.jsx:246 | the thumbnail uploader's `onChange` replaces the thumbnail list with what it hands over |
| DesignForm.DesignFormState.SetPreviewImages | src/components/design/DesignForm.jsx:261 | the preview uploader's `onChange` replaces the preview list with what it hands over |
| DesignForm.DesignFormState.CloseCropper | src/components/design/DesignForm.jsx:291-294 | the crop request is forgotten |
| DesignForm.DesignFormState.HandleCropComplete | src/components/design/DesignForm.jsx:132-156 | without a result or a target nothing changes; otherwise the cropped image becomes the thumbnail or replaces the preview with that id, and the request is cleared |
| BlogForm.With | src/components/blog/BlogForm.jsx:31-46 | setting a field changes that field only |
| BlogForm.InitialFormData | src/components/blog/BlogForm.jsx:18-24 | a new blog starts with all five fields empty; an edited one takes each field from the blog, or "" where the blog lacks it |
| BlogForm.ClearError | src/components/blog/BlogForm.jsx:35-37 | clearing an error clears that key only |
| BlogForm.CollectErrors | src/components/blog/BlogForm.jsx:49-80 | the error object is the one the rules specify |
| BlogForm.FormValidIff | src/components/blog/BlogForm.jsx:52-76 | the form is valid exactly when title, description and content are present, a new blog has a thumbnail, and the meta title and description are at most 60 and 160 UTF-16 code units long |
| BlogForm.AstralMetaTitleRefused | src/components/blog/BlogForm.jsx:69-71 | a meta title of more than 30 astral characters is too long, as `length` counts two code units for each |
| BlogForm.EmptyParagraphIsMissing | src/components/blog/BlogForm.jsx:60-62 | the editor's empty paragraph counts as missing content although it is not blank |
| BlogForm.TextEntriesValues | src/components/blog/BlogForm.jsx:89-99 | each text key holds exactly its value; a blank meta text is not sent |
| BlogForm.ThumbnailEntryValues | src/components/blog/BlogForm.jsx:101-103 | only the thumbnail key holds the file, and only for a new blog |
| BlogForm.SubmissionValues | src/components/blog/BlogForm.jsx:89-104 | the body holds the trimmed title and description, the content as typed, each meta text trimmed when not blank, and the thumbnail only for a new blog |
| BlogForm.AppendAll | src/components/blog/BlogForm.jsx:89-104 | the appends build exactly the assembled body |
| BlogForm.BuildSubmission | src/components/blog/BlogForm.jsx:89-104 | the body built is the submission specification |
| BlogForm.BlogFormState.constructor | src/components/blog/BlogForm.jsx:18-28 | the form starts from the blog's data with no thumbnail, no crop request and no errors |
| BlogForm.BlogFormState.HandleChange | src/components/blog/BlogForm.jsx:31-46 | the field is set, and its error is cleared only when one is shown |
| BlogForm.BlogFormState.Validate | src/components/blog/BlogForm.jsx:49-80 | the errors become exactly the broken rules and the result says there are none |
| BlogForm.BlogFormState.HandleSubmit | src/components/blog/BlogForm.jsx:83-107 | a body is handed over exactly when the form is valid, and it is the submission specification |
| BlogForm.BlogFormState.HandleCropRequest | src/components/blog/BlogForm.jsx:110-112 | the image being cropped is remembered |
| BlogForm.BlogFormState.HandleCropComplete | src/components/blog/BlogForm.jsx:115-131 | without a result or an image being cropped nothing changes; otherwise the cropped image, under the source's id, becomes the thumbnail and the request is cleared |
| Selection.WithoutMembers | src/pages/DesignsList.jsx:114 | removing an id from the selection keeps exactly the other ids |
| Selection.ToggleMembers | src/pages/DesignsList.jsx:93-97 | selecting a row flips the membership of that id and of no other |
| Selection.ToggleTwice | src/pages/DesignsList.jsx:93-97 | toggling a row twice selects the same ids as before |
| Selection.WithoutKeepsDistinct | src/pages/DesignsList.jsx:94-95 | removing an id keeps the selection free of duplicates |
| Selection.ToggleKeepsDistinct | src/pages/BlogsList.jsx:74-78 | a selection built by toggling never lists an id twice |
| Selection.SelectAllAlternates | src/pages/DesignsList.jsx:100-106 | with rows on screen, the header checkbox alternates between all and none |
| Selection.BulkCheckboxState | src/pages/DesignsList.jsx:229-233 | while something is selected the bulk checkbox is never both checked and indeterminate, and exactly one when the selection is within the rows |
| DesignsList.ParamOr | src/pages/DesignsList.jsx:42-44 | an absent or empty parameter gives the fallback, otherwise its value; with a non-empty fallback the result is never empty |
| DesignsList.ParamOrReadsBack | src/pages/DesignsList.jsx:42-44 | a non-empty value written under a key reads back as itself, and a removed key reads as the fallback |
| DesignsList.PageParam | src/pages/DesignsList.jsx:45 | a missing, unreadable or zero page reads as 1, so the page is at least 1 (within the decimal-digit reading of Strings.ParseIntPrefix) |
| DesignsList.FetchQueryFilters | src/pages/DesignsList.jsx:60-75 | page, 12 per page and the sort are sent; the search only when not empty; the category only when chosen and not "all" |
| DesignsList.UrlParamsOmitDefaults | src/pages/DesignsList.jsx:77-83 | the URL carries the search, the category, a sort other than "newest" and a page after the first, and nothing else |
| DesignsList.ReloadRestoresFilters | src/pages/DesignsList.jsx:41-83 | reading the written URL back gives the same filters |
| DesignsList.PageWindowShape | src/pages/DesignsList.jsx:372-382 | the window holds `min(5, totalPages)` consecutive existing pages, including the current page when it exists |
| DesignsList.DesignsListPage.constructor | src/pages/DesignsList.jsx:38-46 | the filters come from the URL with a page of at least 1; nothing selected, no dialog open |
| DesignsList.DesignsListPage.HandleFilterChange | src/pages/DesignsList.jsx:87-90 | one filter is set, the page goes back to 1 and the selection is dropped |
| DesignsList.DesignsListPage.SetPage | src/pages/DesignsList.jsx:366-405 | only the page changes |
| DesignsList.DesignsListPage.HandleSelect | src/pages/DesignsList.jsx:93-97 | the row's id is toggled and no other id changes membership |
| DesignsList.DesignsListPage.HandleSelectAll | src/pages/DesignsList.jsx:100-106 | the selection becomes none or every row |
| DesignsList.DesignsListPage.RequestDelete | src/pages/DesignsList.jsx:289 | the delete dialog opens for that design |
| DesignsList.DesignsListPage.HandleDelete | src/pages/DesignsList.jsx:109-121 | without an id nothing happens; a deleted design leaves the selection and the dialog closes either way |
| DesignsList.DesignsListPage.RequestBulkDelete | src/pages/DesignsList.jsx:244 | the bulk dialog opens |
| DesignsList.DesignsListPage.CancelDelete | src/pages/DesignsList.jsx:418 | cancelling closes the delete dialog |
| DesignsList.DesignsListPage.CancelBulkDelete | src/pages/DesignsList.jsx:430 | cancelling closes the bulk dialog |
| DesignsList.DesignsListPage.HandleBulkDelete | src/pages/DesignsList.jsx:124-134 | success empties the selection; the dialog closes either way |
| BlogsList.FetchQueryFilters | src/pages/BlogsList.jsx:46-57 | page, 12 per page and the sort are sent, the search only when not empty |
| BlogsList.UrlParamsOmitDefaults | src/pages/BlogsList.jsx:59-64 | the URL carries the search, a sort other than "newest" and a page after the first, and nothing else |
| BlogsList.ReloadRestoresFilters | src/pages/BlogsList.jsx:34-64 | reading the written URL back gives the same filters |
| BlogsList.PagesFromMembers | src/pages/BlogsList.jsx:265-273 | a page from `lo` on is listed exactly when it exists and gets a button |
| BlogsList.PagesFromIncreasing | src/pages/BlogsList.jsx:265-273 | the listed pages increase |
| BlogsList.ShownPagesMembers | src/pages/BlogsList.jsx:265-273 | a page has a button exactly when it is the first, the last or next to the current one; the buttons are in increasing order |
| BlogsList.ShownPagesAtMostFive | src/pages/BlogsList.jsx:265-273 | there are never more than five page buttons |
| BlogsList.EllipsisMarksGap | src/pages/BlogsList.jsx:274-277 | an ellipsis stands before a button exactly when the page just before it has none |
| BlogsList.BlogsListPage.constructor | src/pages/BlogsList.jsx:31-38 | the filters come from the URL with a page of at least 1; nothing selected, no dialog open |
| BlogsList.BlogsListPage.HandleFilterChange | src/pages/BlogsList.jsx:68-71 | one filter is set, the page goes back to 1 and the selection is dropped |
| BlogsList.BlogsListPage.SetPage | src/pages/BlogsList.jsx:259-297 | only the page changes |
| BlogsList.BlogsListPage.HandleSelect | src/pages/BlogsList.jsx:74-78 | the row's id is toggled and no other id changes membership |
| BlogsList.BlogsListPage.HandleSelectAll | src/pages/BlogsList.jsx:81-87 | the selection becomes none or every row |
| BlogsList.BlogsListPage.RequestDelete | src/pages/BlogsList.jsx:244 | the delete dialog opens for that blog |
| BlogsList.BlogsListPage.HandleDelete | src/pages/BlogsList.jsx:90-102 | without an id nothing happens; a deleted blog leaves the selection and the dialog closes either way |
| BlogsList.BlogsListPage.RequestBulkDelete | src/pages/BlogsList.jsx:199 | the bulk dialog opens |
| BlogsList.BlogsListPage.CancelDelete | src/pages/BlogsList.jsx:308 | cancelling closes the delete dialog |
| BlogsList.BlogsListPage.CancelBulkDelete | src/pages/BlogsList.jsx:319 | cancelling closes the bulk dialog |
| BlogsList.BlogsListPage.HandleBulkDelete | src/pages/BlogsList.jsx:105-115 | success empties the selection; the dialog closes either way |
| Services.ImageUrlShape | src/services/design.service.js:109-113 | a non-empty path gives a URL starting with "http": the path itself when it starts with "http", the API base followed by the path when it starts with "/", and the base, a "/" and the path otherwise |
| Services.ImageUrlIdempotent | src/services/blog.service.js:101-105 | resolving a resolved URL changes nothing; only a missing or empty path gives null |
| Services.ProgressRange | src/services/design.service.js:45-50 | a percentage is reported exactly when there is a callback and a total; it is at most 100 and exactly 100 once everything is sent |
| Services.ProgressMonotone | src/services/blog.service.js:51-58 | the reported percentage never goes back as more is sent |
| Services.CountStatusSplit | src/services/design.service.js:78-87 | every settled request is counted as fulfilled or rejected |
| Services.BulkDeleteCounts | src/services/design.service.js:78-87 | total is the number of ids, successful plus failed is the total, and nothing fails when every request succeeds |
| DesignsHook.DesignsStore.constructor | src/hooks/useDesigns.js:9-17 | no designs, not loading, no error, page 1 of 20 per page with nothing counted |
| DesignsHook.DesignsStore.Fail | src/hooks/useDesigns.js:31-32 | the error text is `getErrorMessage(err)` |
| DesignsHook.DesignsStore.FetchDesigns | src/hooks/useDesigns.js:20-37 | on success the list is the response's designs or none and the pagination is replaced only when sent; on failure the list and pagination stay and the error is recorded; loading ends false |
| DesignsHook.DesignsStore.CreateDesign | src/hooks/useDesigns.js:40-53 | the list is untouched; the result or the recorded error is returned |
| DesignsHook.DesignsStore.UpdateDesign | src/hooks/useDesigns.js:56-72 | on success every design with that id becomes the returned one and the rest are unchanged; on failure the list stays |
| DesignsHook.DesignsStore.DeleteDesign | src/hooks/useDesigns.js:75-89 | on success exactly the designs with that id leave the list and the result is true; on failure the list stays |
| DesignsHook.DesignsStore.BulkDelete | src/hooks/useDesigns.js:92-106 | on success exactly the designs with a listed id leave the list, whatever the counts; on failure the list stays |
| BlogsHook.ErrorText | src/hooks/useBlogs.js:32 | the text is the error's own message when truthy, else the fallback; a thrown null sets none |
| BlogsHook.BlogsStore.constructor | src/hooks/useBlogs.js:8-18 | no blogs, not loading, no error, page 1 of 1 with 12 per page |
| BlogsHook.BlogsStore.Fail | src/hooks/useBlogs.js:31-33 | the error text is `err.message` or the fallback, unless reading it throws |
| BlogsHook.BlogsStore.FetchBlogs | src/hooks/useBlogs.js:23-37 | on success the list is the response's blogs or none and the pagination is the response's or the initial one; on failure nothing but the error changes; loading ends false |
| BlogsHook.BlogsStore.Call | src/hooks/useBlogs.js:42-71 | a call that does not touch the list returns its result or records the error |
| BlogsHook.BlogsStore.GetBlogById | src/hooks/useBlogs.js:42-54 | the list is untouched; the error text falls back to "Failed to fetch blog" |
| BlogsHook.BlogsStore.CreateBlog | src/hooks/useBlogs.js:59-71 | the list is untouched; the error text falls back to "Failed to create blog" |
| BlogsHook.BlogsStore.UpdateBlog | src/hooks/useBlogs.js:76-92 | on success every blog with that id becomes the returned one and the rest are unchanged; on failure the list stays |
| BlogsHook.BlogsStore.DeleteBlog | src/hooks/useBlogs.js:97-111 | on success exactly the blogs with that id leave the list and the result is `{ success: true }`; on failure the list stays |
| BlogsHook.BlogsStore.BulkDelete | src/hooks/useBlogs.js:116-130 | on success exactly the blogs with a listed id leave the list; on failure the list stays |
| Layout.PageTitle | src/components/layout/MainLayout.jsx:31-36 | "Edit Design" exactly for paths under "/designs/" other than "/designs/new"; otherwise the table's title or "Dashboard"; never empty |
| Layout.PageTitleCases | src/components/layout/MainLayout.jsx:6-35 | "/designs/new" is "Add New Design", every other "/designs/…" is "Edit Design", "/designs" is "Designs", and an unknown path is "Dashboard" |
| Dashboard.Reduce | src/pages/Dashboard.jsx:62-69 | the left fold `reduce` computes the running total plus the sum of the counts |
| Dashboard.SumAppend | src/pages/Dashboard.jsx:62-69 | the total over two lists is the sum of their totals |
| Dashboard.SumMissing | src/pages/Dashboard.jsx:62-69 | designs whose count is missing add nothing, and none gives 0 |
| Dashboard.SumCovers | src/pages/Dashboard.jsx:62-69 | with no negative counts the total is at least any one design's count |
| Dashboard.ComputeStats | src/pages/Dashboard.jsx:62-76 | views and clicks are the sums over the designs (0 without designs), the total is `pagination.totalCount` or 0, and the categories are the number of category stats or 0 |
| Dashboard.Load | src/pages/Dashboard.jsx:48-82 | on success the lists (or none) and the figures are shown, the figures agreeing with the lists; on failure only the spinner stops |

## Left out

- `formatFileSize` is a parameter (`formatSize`) of the validator and the uploader: it formats a floating-point size, and only its text ends up in the size error.
- `readFileAsDataURL`, `generateId`, the clipboard, the canvas (`drawImage`, `toBlob`, `toDataURL`) and `new URL` are oracles. What each yields is supplied per call.
- Cropper.Generate: the file name is taken from the image element's `name` property, the legacy `name` attribute, which reads as "" when unset; ImageCropper.jsx does not set it. The model takes the name as a parameter and falls back to "cropped-image.jpg" when it is empty.
- Strings.ToLower lowers ASCII letters only; `toLowerCase` also folds other scripts.
- Strings.ParseIntPrefix reads leading decimal digits only; the leading white space, the signs and the `0x` hexadecimal prefix `parseInt` accepts are not modelled. A signed page parameter reads as no number, and "0x10" reads as 0 (so page 1) where `parseInt` gives 16.
- Services.Progress computes `Math.round(loaded * 100 / total)` exactly on integers, not in floating point.
- Timers and concurrency are not modelled: `debounce`, `useDebounce` (its settled value is a parameter), `sleep`, the paste message timeout. `Promise.all` and `Promise.allSettled` are not modelled either; their outcomes are given as values, per request for the bulk delete.
- Token storage, the axios interceptors, the rich-text editor and all rendering (class names, animations, icons) are not modelled.
- BlogForm: the wiring of the uploader and the cropper into the blog form is not modelled. Some props it passes are not the names those components read. The uploader (ImageUploader.jsx:18-28) reads `value` and `maxFiles`, not `images` and `maxImages` (BlogForm.jsx:226-234), so it shows no images and allows 5; it does read `onChange` and `onCropRequest`. The cropper (ImageCropper.jsx:22) reads `isOpen`, `onCropComplete` and `onClose`, not `onComplete` and `onCancel` (BlogForm.jsx:257-262), so its dialog never opens and never calls back. BlogForm.BlogFormState.HandleCropComplete is therefore never reached from the page; it is modelled as the handler the form defines.
- Helpers.TruncateText: lengths and the cut point are counted in characters (Unicode scalar values), while `length` and `substring` count UTF-16 code units. On text with astral characters the source may keep fewer characters, or cut a surrogate pair in half, which a Dafny string cannot hold.
- Strings: except for the blog form's meta limits (Strings.Utf16Length), string lengths are counted in characters, not UTF-16 code units. The other lengths compared in the core are lengths of lists, not of strings.
- DesignsHook.DesignsStore.UpdateDesign: assumes the response carries `design`. A response without it would put `undefined` into the list.
- BlogsHook.BlogsStore.UpdateBlog: assumes the response carries `blog`, for the same reason.
- Selection.SelectAll: the selection is not cleared when the page changes, so "select all" compares only counts. Ids selected on another page are kept or dropped without regard to which rows are on screen. This is modelled as written.
- Layout.PageTitle: `pageTitles[path]` would also find properties inherited by every object (such as `constructor`). Those never begin with "/", so no path can reach them, and the model looks up the table only.
- Helpers: `formatDate`, `formatNumber` (locale formatting), `copyToClipboard` and `generateId` are left out as I/O or randomness.
