# Image bank: search pipeline, collection view and local store

This project is a Dafny model of the logic inside a browser image gallery. The gallery's UI is written in React. The model covers three parts:

- **Local store adapter** (`src/utils/indexedDB.ts`): `GalleryStore.GalleryDB` is a class with two keyed stores, `images` and `folders`. Each is a `map` from `id` to record. The class also holds the lazily assigned database handle. Each operation first calls `InitDB`, which opens the database only while the handle is unset. `add` refuses a key that is already present. `put` overwrites or inserts. `delete` removes the key, and an absent key is not an error. An operation on one store never changes the other. These are the no-overwrite and overwrite modes of the object-store storage operation (section 5.1 of the W3C Indexed Database API).
- **Search view** (`src/pages/ImageSearch.tsx`): pure functions over sequences. The filter is case-insensitive and looks at the name and every tag. Exact mode tests equality and fuzzy mode tests `includes`. Results are then left in filter order ("relevance") or sorted descending by date or by the leading integer of the size. Finally a window of 12 results is cut out with `Array.prototype.slice`. The view state is a datatype. Changing the term, the mode, the sort key or the loaded images re-runs the pipeline and resets the page to 1.
- **Collection view** (`src/pages/ImageCollection.tsx`): `ImageCollection.CollectionView` is a class holding the image list, the folder list, the selection and the two input buffers. Its methods are the handlers: create folder, delete folder, add tag, remove tag, select, and upload. Each handler is one atomic step. It makes the store call and then updates the in-memory state. If the store rejects the call, the handler stops before any in-memory update, as the thrown rejection does in the source. The class invariant `Valid()` says that each in-memory list holds every stored record exactly once, and that the selection is one of the listed images. Every handler preserves it.

Modules: `Seqs` holds the `filter` that both views and the store's folder lookup use, and the subsequence relation. `Text` holds the string built-ins: ASCII `toLowerCase`, `includes`, number-to-decimal rendering, and `parseInt` of leading digits. `Records` holds the record types. `GalleryStore`, `ImageSearch` and `ImageCollection` follow the three source files.

Inputs that come from outside the program are parameters:
- the clock: the ids from `Date.now()` and the upload timestamp;
- the date parser: `timeOf` stands for `new Date(createdAt).getTime()`;
- the file picker: `FileInfo` gives a file's name and byte count;
- the file reader's data-URL result: `dataUrl`.

Two behaviours of the code that are easy to miss:
- An empty search term matches every image only in fuzzy mode. In exact mode it matches only images with an empty name or an empty tag (`ImageSearch.EmptyTermExact`).
- Adding a tag and then removing it restores the tag list only when the tag was new. Otherwise every copy is dropped (`ImageCollection.AddThenRemoveTag`).

## Model

| member | source | states |
|---|---|---|
| `Seqs.Filter` | src/pages/ImageSearch.tsx:26 | `Array.prototype.filter`: the result keeps each element that passes as often as the input has it, drops every element that fails, and is an order-preserving subsequence of the input |
| `Text.Lower` | src/pages/ImageSearch.tsx:29 | `toLowerCase` keeps the length, turns each upper-case letter into the lower-case letter at the same place in the alphabet, and leaves every other character unchanged |
| `Text.LowerEqualIff` | src/pages/ImageSearch.tsx:29-35 | two strings lower-case to the same string exactly when they have the same length and agree position by position up to ASCII case, which is what makes the filter case-insensitive |
| `Text.ContainsIff` | src/pages/ImageSearch.tsx:34-35 | `includes` is true exactly when the needle occurs at some position of the haystack |
| `Text.Decimal` | src/pages/ImageCollection.tsx:72 | the decimal rendering of a file size is non-empty, all digits, and has no leading zero |
| `Text.ParseDecimal` | src/pages/ImageSearch.tsx:44 | `parseInt` applied to a rendered number followed by a non-digit suffix (such as `" bytes"`) gives the number back |
| `GalleryStore.Enumerate` | src/utils/indexedDB.ts:48-51 | `getAll` returns every stored record exactly once: each returned record is the one stored under its id, ids do not repeat, every key is covered, and the length equals the number of keys |
| `GalleryStore.ByFolderListing` | src/utils/indexedDB.ts:53-56 | filtering a full listing by `folder` gives exactly the stored images in that folder, each once |
| `GalleryStore.ListingAfterPut` | src/utils/indexedDB.ts:58-66 | after adding or putting a record, a full listing contains it, and any record listed with its id is that record, so the prior version is gone |
| `GalleryStore.GalleryDB.constructor` | src/utils/indexedDB.ts:38-43 | a database that has never been opened has both stores empty, and the handle is unset |
| `GalleryStore.GalleryDB.InitDB` | src/utils/indexedDB.ts:36-46 | opens the database only while the handle is unset, so the open count rises from 0 to 1 once and never again; both stores are unchanged |
| `GalleryStore.GalleryDB.GetAllImages` | src/utils/indexedDB.ts:48-51 | opens the database if needed, returns a listing of the images store, and changes neither store |
| `GalleryStore.GalleryDB.GetImagesByFolder` | src/utils/indexedDB.ts:53-56 | returns exactly the stored images whose `folder` is the argument, each once; neither store changes |
| `GalleryStore.GalleryDB.AddImage` | src/utils/indexedDB.ts:58-61 | inserts under `image.id` when that key is absent; otherwise it fails and changes nothing; the folders store is unchanged |
| `GalleryStore.GalleryDB.UpdateImage` | src/utils/indexedDB.ts:63-66 | upsert: the store maps `image.id` to the image; no other key and not the folders store changes |
| `GalleryStore.GalleryDB.DeleteImage` | src/utils/indexedDB.ts:68-71 | removes the key, with no effect when the key is absent; the folders store is unchanged |
| `GalleryStore.GalleryDB.GetAllFolders` | src/utils/indexedDB.ts:73-76 | returns a listing of the folders store and changes neither store |
| `GalleryStore.GalleryDB.AddFolder` | src/utils/indexedDB.ts:78-81 | inserts under `folder.id` when that key is absent; otherwise it fails and changes nothing; the images store is unchanged |
| `GalleryStore.GalleryDB.UpdateFolder` | src/utils/indexedDB.ts:83-86 | upsert under `folder.id`; no other key and not the images store changes |
| `GalleryStore.GalleryDB.DeleteFolder` | src/utils/indexedDB.ts:88-91 | removes the key, with no effect when the key is absent; the images store is unchanged |
| `ImageSearch.FilterImages` | src/pages/ImageSearch.tsx:26-38 | an image is in the result iff it is in the input and matches in the chosen mode; each match is kept as often as the input holds it; the result is an order-preserving subsequence of the input |
| `ImageSearch.FuzzyByPosition` | src/pages/ImageSearch.tsx:33-36 | fuzzy mode matches iff the lower-cased term occurs at some position of the lower-cased name or of some lower-cased tag |
| `ImageSearch.ExactImpliesFuzzy` | src/pages/ImageSearch.tsx:27-36 | every exact-mode match is a fuzzy-mode match |
| `ImageSearch.ExactResultsWithinFuzzy` | src/pages/ImageSearch.tsx:26-38 | every image the exact-mode filter keeps, the fuzzy-mode filter keeps too |
| `ImageSearch.EmptyTermFuzzyKeepsAll` | src/pages/ImageSearch.tsx:33-36 | with an empty term, the fuzzy filter returns its input unchanged |
| `ImageSearch.EmptyTermExact` | src/pages/ImageSearch.tsx:27-31 | with an empty term, the exact filter keeps exactly the images with an empty name or an empty tag |
| `ImageSearch.CatExample` | src/pages/ImageSearch.tsx:27-36 | "cat" matches an image named "Cat" in both modes, and an image named "cat.png" in fuzzy mode only |
| `ImageSearch.InsertDesc` | src/pages/ImageSearch.tsx:40-45 | inserting into a descending list keeps it descending and adds exactly one copy of the element |
| `ImageSearch.SortDesc` | src/pages/ImageSearch.tsx:40-45 | the comparator sort returns a permutation of its input in which adjacent keys do not increase |
| `ImageSearch.SortedDescPairwise` | src/pages/ImageSearch.tsx:41-45 | non-increasing adjacent keys give non-increasing keys between any two positions |
| `ImageSearch.DateSortExample` | src/pages/ImageSearch.tsx:41-42 | images dated 2024-01-01, 2024-06-01 and 2023-12-01 come out in the order 2024-06-01, 2024-01-01, 2023-12-01 |
| `ImageSearch.Arrange` | src/pages/ImageSearch.tsx:40-45 | the arranged list is a permutation of the filtered list; under "relevance" it is the filtered list unchanged; under "date" or "size" it is non-increasing in timestamp or in the leading integer of `size` |
| `ImageSearch.ResultsArePermutedMatches` | src/pages/ImageSearch.tsx:26-47 | the result list holds exactly the matching images, each as often as the loaded images hold it; under "relevance" it is a subsequence of the loaded images |
| `ImageSearch.PageCount` | src/pages/ImageSearch.tsx:51 | the page count is the ceiling of n / 12: the pages cover n, and one page fewer would not |
| `ImageSearch.SliceIndex` | src/pages/ImageSearch.tsx:52-55 | a slice bound is clamped into the list, and a non-negative bound past the end becomes the length |
| `ImageSearch.PageWindow` | src/pages/ImageSearch.tsx:51-55 | for page p >= 1, the page is the window starting at (p-1)*12 and is cut off at the end of the list; it holds at most 12 images; every page before the last holds exactly 12; pages past the count are empty |
| `ImageSearch.PagesFromSuffix` | src/pages/ImageSearch.tsx:51-55 | pages p through pageCount, concatenated, are the suffix of the list that starts at page p |
| `ImageSearch.PagesConcatenate` | src/pages/ImageSearch.tsx:51-55 | pages 1 through pageCount, concatenated in order, reproduce the list exactly |
| `ImageSearch.TwentyFiveResults` | src/pages/ImageSearch.tsx:51-55 | 25 results give 3 pages, and page 3 holds 1 image |
| `ImageSearch.Refresh` | src/pages/ImageSearch.tsx:25-49 | the effect keeps the term, mode, sort key and images, recomputes the result cache from them, and sets page 1 |
| `ImageSearch.InitialView` | src/pages/ImageSearch.tsx:6-12 | the mounted view has an empty term, fuzzy mode, relevance order, no images and no results, is on page 1, and is consistent |
| `ImageSearch.ChangesResetPage` | src/pages/ImageSearch.tsx:48-49 | each setter installs its new value and keeps the other three inputs; a change of term, mode or sort key resets the page to 1, and so does loading images; every setter keeps the cache consistent with the inputs it leaves; a page button sets only the page and keeps the results |
| `ImageCollection.RemoveFolderById` | src/pages/ImageCollection.tsx:34 | a folder survives iff its id differs from the deleted id, as often as the list holds it; survivors keep their order |
| `ImageCollection.WithoutTag` | src/pages/ImageCollection.tsx:49 | the removed tag no longer occurs; every other tag keeps its count and relative order |
| `ImageCollection.AddThenRemoveTag` | src/pages/ImageCollection.tsx:37-54 | adding a tag and then removing it gives back the original tags when the tag was new; in every case no copy of it remains |
| `ImageCollection.ReplaceById` | src/pages/ImageCollection.tsx:41 | entries with a different id stay unchanged; entries with the id become the updated image; the length is kept |
| `ImageCollection.UploadRecord` | src/pages/ImageCollection.tsx:65-76 | the upload record has the given id, the file's name, the data URL, no tags, folder "default" and resolution "Unknown"; its size is the decimal rendering of the file's byte count followed by `" bytes"`, and it parses back to that count |
| `ImageCollection.AppendKeepsMirror` | src/pages/ImageCollection.tsx:77-78 | appending a newly stored record keeps the list a listing of the store |
| `ImageCollection.ReplaceKeepsMirror` | src/pages/ImageCollection.tsx:40-41 | replacing by id after a put keeps the list a listing of the store, and the list then contains the updated image |
| `ImageCollection.RemoveKeepsMirror` | src/pages/ImageCollection.tsx:33-34 | filtering a folder out of the list after deleting its key keeps the list a listing of the store |
| `ImageCollection.CollectionView.Mount` | src/pages/ImageCollection.tsx:12-21 | loads both lists from the store without changing it; the view satisfies its invariant, with no selection and empty input buffers |
| `ImageCollection.CollectionView.TypeFolderName` | src/pages/ImageCollection.tsx:105 | sets the folder-name buffer and nothing else |
| `ImageCollection.CollectionView.TypeTag` | src/pages/ImageCollection.tsx:163 | sets the tag buffer and nothing else |
| `ImageCollection.CollectionView.CreateFolder` | src/pages/ImageCollection.tsx:23-30 | with an empty name nothing changes; otherwise exactly one private folder with that name is stored and appended, and the buffer is cleared; when the id is already taken the store rejects and nothing changes; images are never touched |
| `ImageCollection.CollectionView.DeleteFolder` | src/pages/ImageCollection.tsx:32-35 | the key leaves the folders store, the list loses every folder with that id and keeps the rest in order, and images, stored images and the selection are unchanged (no cascade) |
| `ImageCollection.CollectionView.SelectImage` | src/pages/ImageCollection.tsx:56-58 | the clicked image becomes the selection and nothing else changes |
| `ImageCollection.CollectionView.AddTag` | src/pages/ImageCollection.tsx:37-45 | with an empty tag or no selection nothing changes; otherwise the selected image's tags become the old tags plus the new tag, and the stored record, the list entry with that id and the selection all equal the updated image; the buffer is cleared |
| `ImageCollection.CollectionView.RemoveTag` | src/pages/ImageCollection.tsx:47-54 | with no selection nothing changes; otherwise the tags lose every copy of the tag, and the stored record, the list entry and the selection all equal the updated image, whose stored tags no longer contain the tag |
| `ImageCollection.CollectionView.UploadImage` | src/pages/ImageCollection.tsx:60-82 | with no file nothing changes; otherwise the upload record is stored and appended to the list; when the id is taken the store rejects and nothing changes; folders and the selection are untouched |

`AddTag` and `RemoveTag` require that the id they are given is the id of the selected image. Their only callers (src/pages/ImageCollection.tsx:153 and :167) pass `selectedImage.id`.

## Left out

- Rendering, the grid/list toggle, the page-button range and styling are display only and are not modelled.
- Routing and the stub pages hold no logic and are not modelled.
- `FileReader` and data-URL encoding are I/O. The encoded string is the opaque input `dataUrl`.
- `GalleryStore.GalleryDB.InitDB` is one atomic step. In the source the handle is assigned only after `await openDB(...)` (src/utils/indexedDB.ts:37-38), so two overlapping first calls both open the database; the model's open-at-most-once invariant does not cover that interleaving.
- Asynchrony is not modelled. This covers awaits, the stale `images` closure in the upload callback, races between handlers, and the interleaving of mount-time loading with user actions. Each handler is one atomic step.
- `idb` internals, transactions, the database name and version, and the upgrade path are not modelled. The constructor stands for a first open with both stores empty. Storage failures other than a duplicate key are also left out.
- `GalleryStore.GalleryDB.GetImagesByFolder` filters a full listing. Whether the secondary index avoids a full scan is a performance matter that the model does not capture.
- `GalleryStore.GalleryDB.GetAllImages` returns the records in an unspecified order. IndexedDB returns them in ascending key order.
- `GalleryStore.GalleryDB.GetAllFolders` returns the records in an unspecified order. IndexedDB returns them in ascending key order.
- `GalleryStore.GalleryDB.GetImagesByFolder` returns the matches in an unspecified order. IndexedDB returns index matches in index-key then primary-key order.
- `GalleryStore.Enumerate` lists the map in an unspecified order, which is why the three getters above state no order.
- `Text.Lower` lower-cases ASCII letters only. Full Unicode `toLowerCase` is not modelled.
- `Text.ParseDecimal` covers only sizes that start with decimal digits. `ImageSearch.SizeKey` gives 0 where `parseInt` would skip leading whitespace, read a sign or a `0x` prefix, or return NaN. Uploads always produce the digit form.
- `ImageSearch.SortDesc` does not state the order of equal keys. The tie order of the engine's sort is not modelled.
- `ImageSearch.DateSortExample` assumes that `timeOf` orders the three dates as the calendar does. Date parsing is not modelled.
- The clock (`Date.now()`, `toISOString()`) is left out. Ids and timestamps are inputs.
