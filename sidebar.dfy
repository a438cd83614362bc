/**
 * The handlers of components/CollapsibleSidebar.tsx: loading a picked
 * directory, opening and closing chapters, choosing a page, the previous /
 * next buttons, zoom, the mode toggle and the sidebar toggle, with the
 * `currentIndex` they share and the page names the chapter list shows.
 */
module Sidebar {
  import opened Wrappers
  import opened Paths
  import opened MangaContext
  import opened Ingest
  import opened HomePage

  /**
   * `handleDirectory`: the chapters made from the picked files replace the
   * old ones wholesale, both selections are cleared and the sidebar opens.
   * `cmp` is the numeric `localeCompare`.
   */
  method HandleDirectory(store: MangaStore, files: seq<File>, cmp: (string, string) -> int)
    requires TotalPreorder(cmp)
    modifies store
    ensures Grouped(files, store.chapters) && Ordered(store.chapters, cmp)
    ensures store.selectedChapter == None && store.selectedPage == None && store.isSidebarOpen
    ensures store.zoom == old(store.zoom) && store.scrollMode == old(store.scrollMode)
    ensures old(store.zoom) >= 0.5 ==> Coherent(store.Snapshot())
    ensures Home(store.Snapshot()) == Prompt(if Kept(files) == [] then UploadManga else SelectChapter)
  {
    var chapters := Ingest.Ingest(files, cmp);
    NoChaptersIffNothingKept(files, chapters);
    store.SetChapters(chapters);
    store.SetSelectedChapter(None);
    store.SetSelectedPage(None);
    store.OpenSidebar();
  }

  /**
   * `toggleChapter`: clicking the open chapter closes it, clicking another
   * opens that one. The selected page is left as it was either way.
   */
  method ToggleChapter(store: MangaStore, chapter: Chapter)
    modifies store
    ensures old(store.selectedChapter).Some? && old(store.selectedChapter).value.id == chapter.id ==>
              store.Snapshot() == old(store.Snapshot()).(selectedChapter := None)
    ensures !(old(store.selectedChapter).Some? && old(store.selectedChapter).value.id == chapter.id) ==>
              store.Snapshot() == old(store.Snapshot()).(selectedChapter := Some(chapter))
    ensures Coherent(old(store.Snapshot())) && chapter in old(store.chapters) ==> Coherent(store.Snapshot())
  {
    if store.selectedChapter.Some? && store.selectedChapter.value.id == chapter.id {
      store.SetSelectedChapter(None);
    } else {
      store.SetSelectedChapter(Some(chapter));
    }
  }

  /** `handlePageClick`: the page is selected and the sidebar closes. */
  method HandlePageClick(store: MangaStore, page: Page)
    modifies store
    ensures store.Snapshot() == old(store.Snapshot()).(selectedPage := Some(page), isSidebarOpen := false)
    ensures Coherent(old(store.Snapshot())) ==> Coherent(store.Snapshot())
    ensures old(store.selectedChapter).Some? ==>
              Home(store.Snapshot()) == (if store.scrollMode then ScrollReader else PageTurnReader)
  {
    store.SetSelectedPage(Some(page));
    store.OpenReader();
    store.CloseSidebar();
  }

  /**
   * The sidebar's `currentIndex`: 0 unless both a chapter and a page are
   * selected; then the position of the first page with the selected page's
   * id, or -1 when the chapter has none.
   */
  function CurrentIndex(chapter: Option<Chapter>, page: Option<Page>): (r: int)
    ensures chapter.None? || page.None? ==> r == 0
    ensures chapter.Some? && page.Some? ==> -1 <= r < |chapter.value.pages|
    ensures chapter.Some? && page.Some? ==>
              (r == -1 <==> forall j :: 0 <= j < |chapter.value.pages| ==> chapter.value.pages[j].id != page.value.id)
    ensures chapter.Some? && page.Some? && r >= 0 ==> chapter.value.pages[r].id == page.value.id
  {
    if chapter.Some? && page.Some? then FindIndex(chapter.value.pages, page.value.id) else 0
  }

  /**
   * The ◀ button (shown only while a chapter and a page are selected): goes
   * to the previous page when the current index is above 0, else does nothing.
   * The page it goes to is in the chapter, so the new index is never -1; it
   * is exactly one less when page ids are distinct.
   */
  method PrevPage(store: MangaStore)
    requires store.selectedChapter.Some? && store.selectedPage.Some?
    modifies store
    ensures var pages := old(store.selectedChapter.value.pages);
            var idx := CurrentIndex(old(store.selectedChapter), old(store.selectedPage));
            && (idx > 0 ==> store.Snapshot() == old(store.Snapshot()).(selectedPage := Some(pages[idx - 1])))
            && (idx <= 0 ==> store.Snapshot() == old(store.Snapshot()))
            && (idx > 0 ==> 0 <= CurrentIndex(store.selectedChapter, store.selectedPage) <= idx - 1)
            && (idx > 0 && DistinctPageIds(pages) ==>
                  CurrentIndex(store.selectedChapter, store.selectedPage) == idx - 1)
    ensures Coherent(old(store.Snapshot())) ==> Coherent(store.Snapshot())
  {
    var idx := CurrentIndex(store.selectedChapter, store.selectedPage);
    if idx > 0 {
      var pages := store.selectedChapter.value.pages;
      if DistinctPageIds(pages) {
        FindIndexOfPage(pages, idx - 1);
      }
      store.SetSelectedPage(Some(pages[idx - 1]));
    }
  }

  /**
   * The ▶ button: goes to the next page when the current index is below the
   * last, else does nothing. From index -1 (the page is not in the chapter)
   * it goes to the first page.
   */
  method NextPage(store: MangaStore)
    requires store.selectedChapter.Some? && store.selectedPage.Some?
    modifies store
    ensures var pages := old(store.selectedChapter.value.pages);
            var idx := CurrentIndex(old(store.selectedChapter), old(store.selectedPage));
            && (idx < |pages| - 1 ==> store.Snapshot() == old(store.Snapshot()).(selectedPage := Some(pages[idx + 1])))
            && (idx >= |pages| - 1 ==> store.Snapshot() == old(store.Snapshot()))
            && (idx < |pages| - 1 ==> 0 <= CurrentIndex(store.selectedChapter, store.selectedPage) <= idx + 1)
            && (idx < |pages| - 1 && DistinctPageIds(pages) ==>
                  CurrentIndex(store.selectedChapter, store.selectedPage) == idx + 1)
    ensures Coherent(old(store.Snapshot())) ==> Coherent(store.Snapshot())
  {
    var idx := CurrentIndex(store.selectedChapter, store.selectedPage);
    var pages := store.selectedChapter.value.pages;
    if idx < |pages| - 1 {
      if DistinctPageIds(pages) {
        FindIndexOfPage(pages, idx + 1);
      }
      store.SetSelectedPage(Some(pages[idx + 1]));
    }
  }

  /** `Math.max(0.5, zoom - 0.1)`: one step smaller, but never below 0.5. */
  function ZoomedOut(zoom: real): (z: real)
    ensures z >= 0.5 && z >= zoom - 0.1
    ensures z == 0.5 || z == zoom - 0.1
  {
    if zoom - 0.1 > 0.5 then zoom - 0.1 else 0.5
  }

  /** The − button. */
  method ZoomOut(store: MangaStore)
    modifies store
    ensures store.Snapshot() == old(store.Snapshot()).(zoom := ZoomedOut(old(store.zoom)))
    ensures store.zoom >= 0.5
    ensures old(store.zoom) >= 0.6 ==> store.zoom == old(store.zoom) - 0.1
    ensures Coherent(old(store.Snapshot())) ==> Coherent(store.Snapshot())
  {
    store.SetZoom(ZoomedOut(store.zoom));
  }

  /** The + button: one step larger, with no upper bound. */
  method ZoomIn(store: MangaStore)
    modifies store
    ensures store.Snapshot() == old(store.Snapshot()).(zoom := old(store.zoom) + 0.1)
    ensures Coherent(old(store.Snapshot())) ==> Coherent(store.Snapshot())
  {
    store.SetZoom(store.zoom + 0.1);
  }

  /** The mode button: flips between scrolling and page turning and touches nothing else. */
  method ToggleMode(store: MangaStore)
    modifies store
    ensures store.Snapshot() == old(store.Snapshot()).(scrollMode := !old(store.scrollMode))
    ensures Coherent(old(store.Snapshot())) ==> Coherent(store.Snapshot())
    ensures old(Home(store.Snapshot())) == ScrollReader <==> Home(store.Snapshot()) == PageTurnReader
    ensures old(Home(store.Snapshot())) == PageTurnReader <==> Home(store.Snapshot()) == ScrollReader
  {
    store.SetScrollMode(!store.scrollMode);
  }

  /** The ☰ / ✕ button: closes an open sidebar and opens a closed one. */
  method ToggleSidebar(store: MangaStore)
    modifies store
    ensures store.Snapshot() == old(store.Snapshot()).(isSidebarOpen := !old(store.isSidebarOpen))
    ensures Coherent(old(store.Snapshot())) ==> Coherent(store.Snapshot())
  {
    if store.isSidebarOpen {
      store.CloseSidebar();
    } else {
      store.OpenSidebar();
    }
  }

  /**
   * The name the chapter list shows for a page: `p.id.split("/").pop() ?? p.id`.
   * `split` never yields an empty array, so the `?? p.id` fallback is never
   * taken; a path ending in `/` shows an empty name.
   */
  function PageName(id: string): (name: string)
    ensures '/' !in name
    ensures |name| <= |id| && name == id[|id| - |name|..]
    ensures |name| < |id| ==> id[|id| - |name| - 1] == '/'
  {
    LastSegmentIsTail(id);
    LastSegment(id)
  }
}
