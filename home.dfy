/**
 * The screen app/page.tsx (`Home`) shows for a state of the reader: a
 * reader view when a chapter and a page are selected, otherwise a button
 * with a prompt.
 */
module HomePage {
  import opened MangaContext

  /** The reader in one of its two modes, or the prompt button with its message. */
  datatype Screen = ScrollReader | PageTurnReader | Prompt(message: string)

  const UploadManga := "Upload manga"
  const SelectChapter := "Select chapter"
  const SelectPage := "Select page"

  /** `Home`. */
  function Home(s: State): (screen: Screen)
    ensures (screen.ScrollReader? || screen.PageTurnReader?)
            <==> s.selectedChapter.Some? && s.selectedPage.Some?
    ensures screen.ScrollReader? ==> s.scrollMode
    ensures screen.PageTurnReader? ==> !s.scrollMode
    ensures screen == Prompt(UploadManga) <==>
              !(s.selectedChapter.Some? && s.selectedPage.Some?) && s.chapters == []
    ensures screen == Prompt(SelectChapter) <==> s.chapters != [] && s.selectedChapter.None?
    ensures screen == Prompt(SelectPage) <==>
              s.chapters != [] && s.selectedChapter.Some? && s.selectedPage.None?
    ensures screen.Prompt? ==> screen.message in {UploadManga, SelectChapter, SelectPage}
  {
    if s.selectedChapter.Some? && s.selectedPage.Some? then
      if s.scrollMode then ScrollReader else PageTurnReader
    else if s.chapters == [] then Prompt(UploadManga)
    else if s.selectedChapter.None? then Prompt(SelectChapter)
    else Prompt(SelectPage)
  }

  /** In a coherent state the "Upload manga" prompt means exactly that nothing is loaded. */
  lemma UploadPromptMeansNoChapters(s: State)
    requires Coherent(s)
    ensures Home(s) == Prompt(UploadManga) <==> s.chapters == []
  {
    if s.chapters == [] {
      assert s.selectedChapter.None?;
    }
  }

  /** Flipping the mode swaps the two reader views and leaves a prompt as it is. */
  lemma ModeSwapsReaderView(s: State)
    ensures Home(s) == ScrollReader <==> Home(s.(scrollMode := !s.scrollMode)) == PageTurnReader
    ensures Home(s).Prompt? ==> Home(s.(scrollMode := !s.scrollMode)) == Home(s)
  {
  }
}
