# zmreader reader core in Dafny

zmreader is a browser manga reader. The user picks a directory. Every file
whose relative path has a segment named like `chapter_2024-03` becomes a
page of the chapter named by the first such segment. The reader then shows the chosen page, either in a
scrolling view or a page-turn view. This project models the logic behind
that and proves properties of it:

- **Directory ingestion** (`handleDirectory` in components/CollapsibleSidebar.tsx).
  Each path is split on `/` and empty segments are dropped. The path is filed
  under its first segment that matches `^chapter_\d{4}-\d{2}$`,
  case-insensitively. Files are bucketed in a `Map` that keeps insertion
  order. Chapters are sorted by folder name and pages by path, both with a
  numeric-aware comparison.
  - Modules: `Paths` (path splitting and the chapter-folder pattern) and `Ingest`
    (grouping, the two in-place sorts, and the properties of the resulting
    chapter list).
- **The shared store** (context/MangaContext.tsx). Module `MangaContext`
  holds the record shapes, the `MangaStore` class, the `useManga` guard and
  the reachable-state invariant `Coherent`. `MangaStore` has the provider's
  six state fields, its setters, `openSidebar`, `closeSidebar` and `openReader`.
- **The sidebar handlers** (module `Sidebar`): chapter toggle, page click,
  the ◀/▶ buttons with their shared `currentIndex`, zoom, the mode and
  sidebar toggles, and the page names in the chapter list.
- **The page-turn reader** (module `Turnable`, components/TurnablePages.tsx):
  its `currentIndex`, `goToPage`, click and arrow-key dispatch, and what it
  renders.
- **The home screen** (module `HomePage`, app/page.tsx): which view or
  prompt is shown for a state.

Some things are modelled as parameters or abstractions:

- The numeric `localeCompare` is a comparator parameter `cmp`. It is required
  to be a total preorder, and both sorts are proved sorted with respect to it.
- `Array.prototype.sort` is an in-place insertion sort on an `array`. It is
  proved sorted and a permutation.
- `URL.createObjectURL(file)` is the opaque value `ObjectUrl(file)`.
- Zoom is a `real`.

The code does not do the following, though a reader might expect it:

- Choosing a chapter does not select or clear a page. So a selected page
  need not belong to the selected chapter.
- Zoom has a floor of 0.5 and no ceiling.
- There is no view state machine beyond the `Home` decision.
- TurnablePages.tsx destructures `selectPage`, which the context does not
  provide. It is modelled as `setSelectedPage`.

## Model

| member | source | states |
|---|---|---|
| Paths.JoinSplit | components/CollapsibleSidebar.tsx:39 | `split("/")` loses nothing: joining its parts with `/` gives back the path |
| Paths.Split | components/CollapsibleSidebar.tsx:39 | `split("/")` yields at least one part, and no part contains `/` |
| Paths.NonEmpty | components/CollapsibleSidebar.tsx:39 | as a set, `filter(Boolean)` keeps exactly the non-empty segments and adds none; it is never longer than its input |
| Paths.NonEmptyPiecewise | components/CollapsibleSidebar.tsx:39 | `filter(Boolean)` keeps order and repeats: it distributes over concatenation, keeping a non-empty single part and dropping an empty one |
| Paths.IsChapterFolder | components/CollapsibleSidebar.tsx:33-40 | a name the pattern accepts is 15 characters long, has `-` at position 12 and contains no `/` |
| Paths.ChapterFolderIsAnchoredMatch | components/CollapsibleSidebar.tsx:33 | a name is a chapter folder iff the whole name matches the anchored pattern, atom by atom |
| Paths.ChapterFolderShape | components/CollapsibleSidebar.tsx:33 | a chapter folder name is 15 characters: `chapter_` in any ASCII case, 4 ASCII digits, `-`, 2 ASCII digits |
| Paths.FindChapterFolder | components/CollapsibleSidebar.tsx:40 | `find` yields none iff no segment is a chapter folder, else the first segment that is one |
| Paths.FindIgnoresEmptySegments | components/CollapsibleSidebar.tsx:39-40 | dropping empty segments before `find` never changes the folder found |
| Paths.ChapterFolderOfChoosesFirst | components/CollapsibleSidebar.tsx:37-41 | a file is filed under the first `/`-segment of its path that is a chapter folder, and under none when no segment is one or the path is empty |
| Paths.LastSegmentIsTail | components/CollapsibleSidebar.tsx:150 | the last `split("/")` part is the suffix of the path after its last `/`, and contains no `/` |
| Ingest.SortByKey | components/CollapsibleSidebar.tsx:46-47 | the in-place sort leaves the array sorted by key under `cmp` and a permutation of its old contents |
| Ingest.AddFile | components/CollapsibleSidebar.tsx:37-43 | one pass of the loop body: a file with an empty path or no chapter folder leaves the map as it was; otherwise it is pushed onto its folder's bucket, and a new folder is first appended to the keys with an empty bucket |
| Ingest.GroupByFolder | components/CollapsibleSidebar.tsx:34-44 | the map's keys are exactly the folders in the order they are first seen (`FoldersSeen`), with no repeats; each key's bucket is the files filed under it, in input order |
| Ingest.GroupStep | components/CollapsibleSidebar.tsx:36-43 | one pass of the loop body keeps the loop's invariants: the keys are the folders seen so far, distinct and equal to the map's domain, and each bucket holds the files filed under its folder so far |
| Ingest.FirstFiled | components/CollapsibleSidebar.tsx:36-43 | the position of the first file filed under a folder: that file is filed there and no earlier one is; `|files|` when none is |
| Ingest.SeenIffFiled | components/CollapsibleSidebar.tsx:42 | a folder becomes a map key exactly when some file is filed under it |
| Ingest.FoldersSeenInFirstFileOrder | components/CollapsibleSidebar.tsx:42-46 | the map's key order is the order of the folders' first files: an earlier key has an earlier first file |
| Ingest.PagesOf | components/CollapsibleSidebar.tsx:59-62 | one page per file, in the same order, with id = the file's relative path and URL = the file's object URL |
| Ingest.ChapterOfEntry | components/CollapsibleSidebar.tsx:48-62 | a chapter has id and title equal to its folder; its pages are its bucket sorted by relative path, each with id = relative path and the file's URL |
| Ingest.Entries | components/CollapsibleSidebar.tsx:46 | `[...chapterMap.entries()]`: one entry per key, in key order, each holding that key's bucket |
| Ingest.EntriesOfDistinctKeys | components/CollapsibleSidebar.tsx:42-46 | the map's entries have distinct folders, each paired with its own bucket |
| Ingest.ChaptersOf | components/CollapsibleSidebar.tsx:48-63 | one chapter per sorted entry, in the same order, each built from its entry (`BuiltFrom`: id and title are the folder, the pages show the entry's files sorted by path) |
| Ingest.Assembled | components/CollapsibleSidebar.tsx:46-63 | sorting the entries by folder and mapping each to a chapter groups the files (`Grouped`) and leaves the chapters and their pages in order (`Ordered`) |
| Ingest.Ingest | components/CollapsibleSidebar.tsx:31-63 | the chapters have distinct ids equal to their titles and are sorted by id; there is one chapter per chapter folder that some file is filed under; each chapter's pages are a sorted permutation of its bucket |
| Ingest.SortedWithoutTiesUnique | components/CollapsibleSidebar.tsx:46-47 | two sorted orderings of the same distinct names are equal when no two of the names compare equal |
| Ingest.IdsAreChapterFolders | components/CollapsibleSidebar.tsx:40-50 | every chapter id is a name the chapter pattern accepts |
| Ingest.ChapterOrderDetermined | components/CollapsibleSidebar.tsx:46-50 | when the comparator never ties two distinct chapter folder names, any two groupings of the same files sorted by it list the chapter ids in the same order, so the order the map holds its keys does not show through |
| Ingest.DroppedFileOnNoPage | components/CollapsibleSidebar.tsx:38-41 | a file with an empty path or no chapter folder is on no page |
| Ingest.KeptFileInOneChapter | components/CollapsibleSidebar.tsx:42-43 | a kept file is on a page of the chapter for its folder and of no other chapter |
| Ingest.TotalPagesIsKeptCount | components/CollapsibleSidebar.tsx:36-63 | the total page count equals the number of kept files |
| Ingest.NoChaptersIffNothingKept | components/CollapsibleSidebar.tsx:36-63 | no chapters come out iff no file is kept |
| Ingest.PageIdsDistinct | components/CollapsibleSidebar.tsx:59-60 | picked files with distinct paths give each chapter distinct page ids |
| MangaContext.FindIndex | components/TurnablePages.tsx:12 | `findIndex` is -1 iff no page has the id, else the first index of a page with it |
| MangaContext.MangaStore.constructor | context/MangaContext.tsx:47-54 | the initial state is no chapters, nothing selected, sidebar open, zoom 1, scroll mode; it is coherent |
| MangaContext.MangaStore.SetChapters | context/MangaContext.tsx:47 | the setter replaces the chapter list and no other field |
| MangaContext.MangaStore.SetSelectedChapter | context/MangaContext.tsx:48-50 | the setter replaces the selected chapter and no other field |
| MangaContext.MangaStore.SetSelectedPage | context/MangaContext.tsx:51 | the setter replaces the selected page and no other field |
| MangaContext.MangaStore.OpenReader | context/MangaContext.tsx:56 | `openReader` changes nothing |
| MangaContext.MangaStore.OpenSidebar | context/MangaContext.tsx:57 | the sidebar is open afterwards and nothing else changed, so opening twice equals opening once |
| MangaContext.MangaStore.CloseSidebar | context/MangaContext.tsx:58 | the sidebar is closed afterwards and nothing else changed, so closing twice equals closing once |
| MangaContext.MangaStore.SetZoom | context/MangaContext.tsx:53 | the setter replaces the zoom and no other field |
| MangaContext.MangaStore.SetScrollMode | context/MangaContext.tsx:54 | the setter replaces the mode and no other field |
| MangaContext.UseManga | context/MangaContext.tsx:40-44 | outside a provider the result is the error "useManga must be used within MangaProvider", and inside one it is that provider's store |
| HomePage.Home | app/page.tsx:11-23 | a reader iff both a chapter and a page are selected, scrolling iff scroll mode; otherwise "Upload manga" iff no chapters, "Select chapter" iff chapters but none selected, "Select page" iff a chapter but no page |
| HomePage.UploadPromptMeansNoChapters | app/page.tsx:21 | in a coherent state "Upload manga" is shown exactly when no chapters are loaded |
| Sidebar.HandleDirectory | components/CollapsibleSidebar.tsx:31-69 | the chapters are replaced by the ingested ones, both selections are cleared, the sidebar opens, zoom and mode stay, and the home screen prompts "Upload manga" if no file was kept, else "Select chapter" |
| Sidebar.ToggleChapter | components/CollapsibleSidebar.tsx:71-74 | clicking the open chapter (same id) closes it, any other opens it; the selected page and all other fields are untouched; coherence is kept for a listed chapter |
| Sidebar.HandlePageClick | components/CollapsibleSidebar.tsx:76-80 | the page is selected and the sidebar closed, nothing else changes; with a chapter open the home screen becomes the reader of the current mode |
| Sidebar.CurrentIndex | components/CollapsibleSidebar.tsx:82-85 | 0 unless both are selected; otherwise -1 iff the chapter has no page with the selected id, else the first such position |
| Sidebar.PrevPage | components/CollapsibleSidebar.tsx:186-190 | above index 0 the previous page is selected, and the new index lies in [0, idx-1], exactly idx-1 when page ids are distinct; at 0 or -1 nothing changes |
| Sidebar.NextPage | components/CollapsibleSidebar.tsx:202-206 | below the last index the next page is selected (from -1 the first), and the new index lies in [0, idx+1], exactly idx+1 when page ids are distinct; at the last index nothing changes |
| Sidebar.ZoomedOut | components/CollapsibleSidebar.tsx:218 | zooming out gives 0.5 or zoom − 0.1, whichever is larger, so never less than 0.5 |
| Sidebar.ZoomOut | components/CollapsibleSidebar.tsx:218 | only the zoom changes, to at least 0.5, by exactly −0.1 from 0.6 up |
| Sidebar.ZoomIn | components/CollapsibleSidebar.tsx:227 | only the zoom changes, by +0.1, with no upper bound |
| Sidebar.ToggleMode | components/CollapsibleSidebar.tsx:236 | only the mode flips, and the home screen's scroll reader and page-turn reader swap |
| Sidebar.ToggleSidebar | components/CollapsibleSidebar.tsx:114 | the ☰/✕ button flips the sidebar and changes nothing else |
| Sidebar.PageName | components/CollapsibleSidebar.tsx:150 | the displayed name is the part of the page id after its last `/` (all of it when there is none); it never contains `/` |
| HomePage.ModeSwapsReaderView | app/page.tsx:14 | flipping the mode swaps the two reader views and leaves a prompt unchanged |
| Turnable.ChapterPages | components/TurnablePages.tsx:10 | the open chapter's pages, and no pages when no chapter is open |
| Turnable.TurnIndex | components/TurnablePages.tsx:10-13 | 0 when no page is selected; otherwise -1 iff the open chapter (none counts as empty) has no page with that id, else the first such position |
| Turnable.TurnIndexIsSidebarIndex | components/TurnablePages.tsx:11-13 | with a chapter and a page selected, the reader's index equals the sidebar's |
| Turnable.AfterGoTo | components/TurnablePages.tsx:15-21 | the state after `goToPage`: only the selected page may change; inside [0, len) it becomes `pages[index]`, outside the state is unchanged |
| Turnable.GoToLandsOnIndex | components/TurnablePages.tsx:15-21 | `goToPage` outside [0, len) changes nothing; inside it selects a page of the chapter whose index is at most the target, exactly the target with distinct ids; only the page changes |
| Turnable.StepFromCurrent | components/TurnablePages.tsx:23-33 | a ±1 step past either end, or back from -1, changes nothing; forward from -1 opens the first page; inside the chapter it moves the index by exactly one |
| Turnable.GoToPage | components/TurnablePages.tsx:15-21 | the store afterwards is the range-checked selection of `pages[index]`; coherence is kept |
| Turnable.ClickTarget | components/TurnablePages.tsx:25-26 | a click left of the midpoint asks for the previous index, anywhere else the next |
| Turnable.HandleClick | components/TurnablePages.tsx:23-27 | a click performs `goToPage` of the click target from the current index |
| Turnable.KeyTarget | components/TurnablePages.tsx:31-32 | ArrowRight asks for the next index, ArrowLeft for the previous, any other key for nothing |
| Turnable.HandleKey | components/TurnablePages.tsx:30-33 | an arrow key performs `goToPage` of its target; any other key leaves the store as it was |
| Turnable.RenderAsWritten | components/TurnablePages.tsx:38-40 | the render as written: nothing exactly when no chapter is open or it has no pages; a picture is the selected page of the chapter (the first page when none is selected); otherwise the `url`-of-undefined TypeError |
| Turnable.AsWrittenThrowsOnForeignPage | components/TurnablePages.tsx:38-40 | the render as written throws iff an open non-empty chapter lacks the selected page |
| Turnable.AsWrittenThrowsExample | components/TurnablePages.tsx:40 | a coherent state in which the home screen shows the page-turn reader and its render throws |
| Turnable.ForeignPageScenario | components/CollapsibleSidebar.tsx:71-80 | with chapters A and B listed (the ☰ button is at line 114, the mode button at line 236): opening A, clicking its page (which closes the sidebar), reopening the sidebar with ☰, opening B and switching mode reaches that state |
| Turnable.Render | components/TurnablePages.tsx:38-40 | the corrected render never throws; it shows the selected page of the open chapter (the first page when none is selected), and shows nothing without a chapter, with an empty chapter, or when the page is not in it |
| Turnable.RenderAgreesUnlessThrown | components/TurnablePages.tsx:38-40 | the corrected render equals the as-written one wherever that does not throw, and shows nothing where it throws |

## Findings

| source | as written | input that shows it | evidently intended | confidence | as-written member | corrected member |
|---|---|---|---|---|---|---|
| components/TurnablePages.tsx:40 | `pages[currentIndex]` is read with `currentIndex == -1` when the selected page is not in the open chapter, giving `undefined`; reading `page.url` then throws a TypeError | chapters A and B; open A, click its page (the sidebar closes), reopen the sidebar (☰), open B (the page stays selected), switch to page-turn mode | the empty-chapter guard on line 38 should also cover a page the chapter does not contain, so nothing is rendered and nothing throws | high, not executed | Turnable.RenderAsWritten (with Turnable.AsWrittenThrowsExample and Turnable.ForeignPageScenario) | Turnable.Render |

## Left out

- components/ScrollablePages.tsx: the scrolling view is DOM rendering with element refs and `scrollIntoView`, and keeps no state of its own.
- components/FilePickerButton.tsx and app/layout.tsx: DOM and framework wiring only.
- `URL.createObjectURL` is a browser call. Its result is the opaque value `ObjectUrl(file)`, and the code never revokes them.
- Ingest.SortByKey: proved sorted and a permutation; stability is not proved, so the result's order of elements that compare equal is not stated.
- Ingest.Ingest: the chapter order is fixed only under `NoTiesBetweenFolders`, the assumption that the comparator never ties two distinct chapter folder names (ChapterOrderDetermined). The numeric `localeCompare` does not: such names differ in the letter case of `chapter` or in a digit of a fixed-width number. Two distinct page paths can tie (for example `1.png` and `01.png` compare equal numerically). The order of such pages within a chapter is left unstated.
- Zoom arithmetic is exact over `real`. Floating-point rounding of the ±0.1 steps and the `toFixed(2)` display are not modelled.
- The page counter (`{currentIndex + 1} / {length}`) and the disabled state of the ◀/▶ buttons are display only. A disabled button would be a no-op anyway, which the guards in PrevPage and NextPage already give.
- Animations, the overlay, CSS classes, and registering and removing the `keydown` listener are not modelled. A key press is modelled as a direct call of HandleKey with the current state.
- React's batching of setter calls is not modelled. Each handler applies its setters one after another to the store.
- The lazy-load `files?` field of a chapter is never set and is left out of the record.
- The `selectPage` that TurnablePages.tsx destructures is not provided by the context object. It is read as `setSelectedPage`, so the navigation handlers are modelled as if it were wired.
- File contents and the browser `File` object are not modelled. A file is its relative path plus an opaque handle.
