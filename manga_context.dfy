/**
 * The shared reader state of context/MangaContext.tsx: the page and chapter
 * records, the six `useState` fields of `MangaProvider` with their setters,
 * and the `useManga` guard.
 */
module MangaContext {
  import opened Wrappers

  /**
   * A file from the directory picker. `handle` stands for the browser's
   * `File` object, whose bytes the model never reads.
   */
  datatype File = File(relativePath: string, handle: nat)

  /** `URL.createObjectURL(file)`: an opaque reference to the file's bytes. */
  datatype Url = ObjectUrl(source: File)

  /** `MangaPage`: identified by the file's relative path. */
  datatype Page = Page(id: string, url: Url)

  /** `MangaChapter`: identified by its folder name, which is also its title. */
  datatype Chapter = Chapter(id: string, title: string, pages: seq<Page>)

  /** The values of the provider's six state fields at one moment. */
  datatype State = State(
    chapters: seq<Chapter>,
    selectedChapter: Option<Chapter>,
    selectedPage: Option<Page>,
    isSidebarOpen: bool,
    zoom: real,
    scrollMode: bool)

  /**
   * What every state reachable through the reader's handlers satisfies: a
   * selected chapter is one of the listed chapters, and the zoom never went
   * below the zoom-out floor of 0.5. (A selected page need NOT belong to the
   * selected chapter: choosing another chapter keeps the page.)
   */
  ghost predicate Coherent(s: State)
  {
    && (s.selectedChapter.Some? ==> s.selectedChapter.value in s.chapters)
    && s.zoom >= 0.5
  }

  /** `Array.prototype.findIndex((p) => p.id === id)`. */
  function FindIndex(pages: seq<Page>, id: string): (r: int)
    ensures -1 <= r < |pages|
    ensures r == -1 <==> forall j :: 0 <= j < |pages| ==> pages[j].id != id
    ensures r >= 0 ==> pages[r].id == id && forall j :: 0 <= j < r ==> pages[j].id != id
  {
    if pages == [] then -1
    else if pages[0].id == id then 0
    else
      var r := FindIndex(pages[1..], id);
      if r == -1 then -1 else r + 1
  }

  /** No two elements of the sequence share a key. */
  predicate DistinctBy<T>(s: seq<T>, key: T -> string)
  {
    forall i, j :: 0 <= i < j < |s| ==> key(s[i]) != key(s[j])
  }

  function PageId(p: Page): string { p.id }

  /** No two pages of the sequence share an id. */
  predicate DistinctPageIds(pages: seq<Page>)
  {
    DistinctBy(pages, PageId)
  }

  /** With distinct ids, looking up the id of page `k` finds `k` again. */
  lemma FindIndexOfPage(pages: seq<Page>, k: nat)
    requires k < |pages| && DistinctPageIds(pages)
    ensures FindIndex(pages, pages[k].id) == k
  {
  }

  /** The provider's state fields with their setters. */
  class MangaStore {
    var chapters: seq<Chapter>
    var selectedChapter: Option<Chapter>
    var selectedPage: Option<Page>
    var isSidebarOpen: bool
    var zoom: real
    var scrollMode: bool

    /** All six fields as one value. */
    function Snapshot(): State
      reads this
    {
      State(chapters, selectedChapter, selectedPage, isSidebarOpen, zoom, scrollMode)
    }

    /** `MangaProvider`'s initial `useState` values. */
    constructor ()
      ensures chapters == [] && selectedChapter == None && selectedPage == None
      ensures isSidebarOpen && zoom == 1.0 && scrollMode
      ensures Coherent(Snapshot())
    {
      chapters := [];
      selectedChapter := None;
      selectedPage := None;
      isSidebarOpen := true;
      zoom := 1.0;
      scrollMode := true;
    }

    method SetChapters(cs: seq<Chapter>)
      modifies this
      ensures Snapshot() == old(Snapshot()).(chapters := cs)
    {
      chapters := cs;
    }

    method SetSelectedChapter(c: Option<Chapter>)
      modifies this
      ensures Snapshot() == old(Snapshot()).(selectedChapter := c)
    {
      selectedChapter := c;
    }

    method SetSelectedPage(p: Option<Page>)
      modifies this
      ensures Snapshot() == old(Snapshot()).(selectedPage := p)
    {
      selectedPage := p;
    }

    /** `openReader` is an empty callback: it changes nothing. */
    method OpenReader()
      ensures Snapshot() == old(Snapshot())
    {
    }

    method OpenSidebar()
      modifies this
      ensures Snapshot() == old(Snapshot()).(isSidebarOpen := true)
    {
      isSidebarOpen := true;
    }

    method CloseSidebar()
      modifies this
      ensures Snapshot() == old(Snapshot()).(isSidebarOpen := false)
    {
      isSidebarOpen := false;
    }

    method SetZoom(z: real)
      modifies this
      ensures Snapshot() == old(Snapshot()).(zoom := z)
    {
      zoom := z;
    }

    method SetScrollMode(b: bool)
      modifies this
      ensures Snapshot() == old(Snapshot()).(scrollMode := b)
    {
      scrollMode := b;
    }
  }

  /** The message `useManga` throws when no provider encloses the caller. */
  const OutsideProvider := "useManga must be used within MangaProvider"

  /** `useManga`: the enclosing provider's store, or an error when there is none. */
  function UseManga(provider: Option<MangaStore>): (r: Result<MangaStore, string>)
    ensures r.Ok? <==> provider.Some?
    ensures r.Ok? ==> r.value == provider.value
    ensures r.Err? ==> r.error == OutsideProvider
  {
    match provider
    case None => Err(OutsideProvider)
    case Some(store) => Ok(store)
  }
}
