/**
 * The page-turn reader of components/TurnablePages.tsx: its current index,
 * `goToPage`, the click and arrow-key handlers, and what it renders.
 */
module Turnable {
  import opened Wrappers
  import opened MangaContext
  import opened HomePage
  import Sidebar

  /** `selectedChapter?.pages ?? []`: the open chapter's pages, none when no chapter is open. */
  function ChapterPages(chapter: Option<Chapter>): (pages: seq<Page>)
    ensures chapter.None? ==> pages == []
    ensures chapter.Some? ==> pages == chapter.value.pages
  {
    if chapter.Some? then chapter.value.pages else []
  }

  /**
   * The reader's `currentIndex`: 0 when no page is selected, otherwise the
   * position of the first page carrying the selected page's id, or -1 when
   * there is none (always -1 when no chapter is selected).
   */
  function TurnIndex(chapter: Option<Chapter>, page: Option<Page>): (r: int)
    ensures page.None? ==> r == 0
    ensures page.Some? ==> -1 <= r < |ChapterPages(chapter)|
    ensures page.Some? ==>
              (r == -1 <==> forall j :: 0 <= j < |ChapterPages(chapter)| ==> ChapterPages(chapter)[j].id != page.value.id)
    ensures page.Some? && r >= 0 ==> ChapterPages(chapter)[r].id == page.value.id
  {
    if page.Some? then FindIndex(ChapterPages(chapter), page.value.id) else 0
  }

  /** The reader's index agrees with the sidebar's whenever both a chapter and a page are selected. */
  lemma TurnIndexIsSidebarIndex(chapter: Option<Chapter>, page: Option<Page>)
    requires chapter.Some? && page.Some?
    ensures TurnIndex(chapter, page) == Sidebar.CurrentIndex(chapter, page)
  {
  }

  /** The state after `goToPage(index)`: a range check, then the page at `index` is selected. */
  function AfterGoTo(s: State, index: int): (t: State)
    ensures t == s.(selectedPage := t.selectedPage)
    ensures 0 <= index < |ChapterPages(s.selectedChapter)| ==>
              t.selectedPage == Some(ChapterPages(s.selectedChapter)[index])
    ensures !(0 <= index < |ChapterPages(s.selectedChapter)|) ==> t == s
  {
    var pages := ChapterPages(s.selectedChapter);
    if 0 <= index < |pages| then s.(selectedPage := Some(pages[index])) else s
  }

  /**
   * `goToPage` only ever selects a page of the open chapter, changes nothing
   * but the selected page, and lands exactly on `index` when ids are
   * distinct; an index outside the chapter changes nothing at all.
   */
  lemma GoToLandsOnIndex(s: State, index: int)
    ensures var pages := ChapterPages(s.selectedChapter);
            var t := AfterGoTo(s, index);
            && t == s.(selectedPage := t.selectedPage)
            && (!(0 <= index < |pages|) ==> t == s)
            && (0 <= index < |pages| ==> t.selectedPage.Some? && t.selectedPage.value in pages)
            && (0 <= index < |pages| ==> 0 <= TurnIndex(t.selectedChapter, t.selectedPage) <= index)
            && (0 <= index < |pages| && DistinctPageIds(pages) ==>
                  TurnIndex(t.selectedChapter, t.selectedPage) == index)
  {
    var pages := ChapterPages(s.selectedChapter);
    if 0 <= index < |pages| && DistinctPageIds(pages) {
      FindIndexOfPage(pages, index);
    }
  }

  /**
   * One step from the current index: the new index is one further when the
   * step stays inside the chapter (ids distinct), and at either end, or from
   * -1 going back, nothing changes. From -1 a step forward opens the first page.
   */
  lemma StepFromCurrent(s: State, delta: int)
    requires delta == 1 || delta == -1
    requires s.selectedPage.Some?
    ensures var pages := ChapterPages(s.selectedChapter);
            var i := TurnIndex(s.selectedChapter, s.selectedPage);
            && (i + delta < 0 || i + delta >= |pages| ==> AfterGoTo(s, i + delta) == s)
            && (i == -1 && delta == 1 && pages != [] ==> AfterGoTo(s, i + delta).selectedPage == Some(pages[0]))
            && (0 <= i + delta < |pages| && DistinctPageIds(pages) ==>
                  TurnIndex(s.selectedChapter, AfterGoTo(s, i + delta).selectedPage) == i + delta)
  {
    var pages := ChapterPages(s.selectedChapter);
    var i := TurnIndex(s.selectedChapter, s.selectedPage);
    GoToLandsOnIndex(s, i + delta);
  }

  /** `goToPage`, with `selectPage` read as the store's `setSelectedPage`. */
  method GoToPage(store: MangaStore, index: int)
    modifies store
    ensures store.Snapshot() == AfterGoTo(old(store.Snapshot()), index)
    ensures Coherent(old(store.Snapshot())) ==> Coherent(store.Snapshot())
  {
    var pages := ChapterPages(store.selectedChapter);
    if index < 0 || index >= |pages| {
      return;
    }
    store.SetSelectedPage(Some(pages[index]));
  }

  /** The index a click at horizontal position `x` asks for: back on the left half, forward on the right. */
  function ClickTarget(current: int, x: real, innerWidth: real): (target: int)
    ensures x < innerWidth / 2.0 ==> target == current - 1
    ensures x >= innerWidth / 2.0 ==> target == current + 1
  {
    if x < innerWidth / 2.0 then current - 1 else current + 1
  }

  /** `handleClick`. */
  method HandleClick(store: MangaStore, x: real, innerWidth: real)
    modifies store
    ensures store.Snapshot() ==
              AfterGoTo(old(store.Snapshot()),
                        ClickTarget(TurnIndex(old(store.selectedChapter), old(store.selectedPage)), x, innerWidth))
    ensures Coherent(old(store.Snapshot())) ==> Coherent(store.Snapshot())
  {
    var current := TurnIndex(store.selectedChapter, store.selectedPage);
    if x < innerWidth / 2.0 {
      GoToPage(store, current - 1);
    } else {
      GoToPage(store, current + 1);
    }
  }

  /** The index a key press asks for, or None for a key the reader ignores. */
  function KeyTarget(current: int, key: string): (target: Option<int>)
    ensures key == "ArrowRight" <==> target == Some(current + 1)
    ensures key == "ArrowLeft" <==> target == Some(current - 1)
    ensures target.None? <==> key != "ArrowRight" && key != "ArrowLeft"
  {
    if key == "ArrowRight" then Some(current + 1)
    else if key == "ArrowLeft" then Some(current - 1)
    else None
  }

  /** The `keydown` listener. */
  method HandleKey(store: MangaStore, key: string)
    modifies store
    ensures var target := KeyTarget(TurnIndex(old(store.selectedChapter), old(store.selectedPage)), key);
            && (target.Some? ==> store.Snapshot() == AfterGoTo(old(store.Snapshot()), target.value))
            && (target.None? ==> store.Snapshot() == old(store.Snapshot()))
    ensures Coherent(old(store.Snapshot())) ==> Coherent(store.Snapshot())
  {
    var current := TurnIndex(store.selectedChapter, store.selectedPage);
    if key == "ArrowRight" {
      GoToPage(store, current + 1);
    }
    if key == "ArrowLeft" {
      GoToPage(store, current - 1);
    }
  }

  /** What the component puts on screen. */
  datatype View = Blank | Picture(url: Url) | Crash(message: string)

  const UndefinedUrl := "Cannot read properties of undefined (reading 'url')"

  /**
   * The render as written: nothing without a chapter or with an empty one,
   * otherwise the image of `pages[currentIndex]`. With index -1 that element
   * is `undefined`, and reading its `url` throws.
   */
  function RenderAsWritten(s: State): (v: View)
    ensures v.Blank? <==> s.selectedChapter.None? || ChapterPages(s.selectedChapter) == []
    ensures v.Picture? ==>
              exists i :: 0 <= i < |ChapterPages(s.selectedChapter)| &&
                v.url == ChapterPages(s.selectedChapter)[i].url &&
                (s.selectedPage.Some? ==> ChapterPages(s.selectedChapter)[i].id == s.selectedPage.value.id) &&
                (s.selectedPage.None? ==> i == 0)
    ensures v.Crash? ==> v.message == UndefinedUrl
  {
    var pages := ChapterPages(s.selectedChapter);
    if s.selectedChapter.None? || |pages| == 0 then Blank
    else
      var i := TurnIndex(s.selectedChapter, s.selectedPage);
      if 0 <= i < |pages| then Picture(pages[i].url) else Crash(UndefinedUrl)
  }

  /** The as-written render throws exactly when the selected page is not in a non-empty open chapter. */
  lemma AsWrittenThrowsOnForeignPage(s: State)
    ensures RenderAsWritten(s).Crash? <==>
              && s.selectedChapter.Some? && s.selectedChapter.value.pages != []
              && s.selectedPage.Some?
              && forall j :: 0 <= j < |s.selectedChapter.value.pages| ==>
                   s.selectedChapter.value.pages[j].id != s.selectedPage.value.id
  {
  }

  /**
   * A state the handlers reach in five clicks (see `ForeignPageScenario`)
   * where `Home` shows this reader and the as-written render throws.
   */
  lemma AsWrittenThrowsExample()
    ensures var s := ForeignPageState();
            Coherent(s) && Home(s) == PageTurnReader && RenderAsWritten(s) == Crash(UndefinedUrl)
  {
    var s := ForeignPageState();
    assert FindIndex(ChapterB().pages, PageA().id) == -1 by {
      assert ChapterB().pages[0].id != PageA().id by {
        assert ChapterB().pages[0].id[14] == '3' && PageA().id[14] == '2';
      }
    }
  }

  function PageA(): Page
  {
    Page("chapter_2024-02/001.png", ObjectUrl(File("chapter_2024-02/001.png", 0)))
  }

  function PageB(): Page
  {
    Page("chapter_2024-03/001.png", ObjectUrl(File("chapter_2024-03/001.png", 1)))
  }

  function ChapterA(): Chapter
  {
    Chapter("chapter_2024-02", "chapter_2024-02", [PageA()])
  }

  function ChapterB(): Chapter
  {
    Chapter("chapter_2024-03", "chapter_2024-03", [PageB()])
  }

  /**
   * Chapter B open in page-turn mode, with the sidebar open, while the page
   * chosen earlier in chapter A is still selected.
   */
  function ForeignPageState(): State
  {
    State([ChapterA(), ChapterB()], Some(ChapterB()), Some(PageA()), true, 1.0, false)
  }

  /**
   * The clicks that lead there, once the two chapters are listed: open
   * chapter A, click its page (which closes the sidebar), reopen the sidebar
   * with ☰ (the chapter list and the mode button show only while it is
   * open), open chapter B (which keeps the page), switch to page turning.
   */
  method ForeignPageScenario() returns (store: MangaStore)
    ensures store.Snapshot() == ForeignPageState()
  {
    store := new MangaStore();
    store.SetChapters([ChapterA(), ChapterB()]);
    Sidebar.ToggleChapter(store, ChapterA());
    Sidebar.HandlePageClick(store, PageA());
    Sidebar.ToggleSidebar(store);
    Sidebar.ToggleChapter(store, ChapterB());
    Sidebar.ToggleMode(store);
  }

  /**
   * The render with the empty-chapter guard extended to a page the chapter
   * does not contain: it never throws, and what it shows is the selected
   * page of the open chapter (the first page when none is selected).
   */
  function Render(s: State): (v: View)
    ensures !v.Crash?
    ensures v.Picture? ==>
              exists i :: 0 <= i < |ChapterPages(s.selectedChapter)| &&
                v.url == ChapterPages(s.selectedChapter)[i].url &&
                (s.selectedPage.Some? ==> ChapterPages(s.selectedChapter)[i].id == s.selectedPage.value.id) &&
                (s.selectedPage.None? ==> i == 0)
    ensures v.Blank? <==>
              || s.selectedChapter.None? || ChapterPages(s.selectedChapter) == []
              || (s.selectedPage.Some? &&
                  forall j :: 0 <= j < |ChapterPages(s.selectedChapter)| ==>
                    ChapterPages(s.selectedChapter)[j].id != s.selectedPage.value.id)
  {
    var pages := ChapterPages(s.selectedChapter);
    if s.selectedChapter.None? || |pages| == 0 then Blank
    else
      var i := TurnIndex(s.selectedChapter, s.selectedPage);
      if 0 <= i < |pages| then Picture(pages[i].url) else Blank
  }

  /** Wherever the as-written render does not throw, the corrected one shows the same thing. */
  lemma RenderAgreesUnlessThrown(s: State)
    ensures !RenderAsWritten(s).Crash? ==> Render(s) == RenderAsWritten(s)
    ensures RenderAsWritten(s).Crash? ==> Render(s) == Blank
  {
  }
}
