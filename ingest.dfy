/**
 * `handleDirectory`'s grouping and ordering (components/CollapsibleSidebar.tsx):
 * every picked file whose path holds a chapter folder name is put in that
 * folder's bucket; the buckets become chapters sorted by folder name, and
 * each chapter's files are sorted by relative path, both with the numeric
 * `localeCompare` comparator.
 */
module Ingest {
  import opened Wrappers
  import opened Paths
  import opened MangaContext

  // ---------------------------------------------------------------------
  // The comparator and Array.prototype.sort
  // ---------------------------------------------------------------------

  /**
   * `localeCompare(…, { numeric: true })` is a consistent comparator:
   * "`a` may come before `b`", `cmp(a, b) <= 0`, is a total preorder.
   */
  ghost predicate TotalPreorder(cmp: (string, string) -> int)
  {
    Total(cmp) && (forall a, b, c :: cmp(a, b) <= 0 && cmp(b, c) <= 0 ==> cmp(a, c) <= 0)
  }

  /** Of any two strings, one may come before the other. */
  ghost predicate Total(cmp: (string, string) -> int)
  {
    forall a, b :: cmp(a, b) <= 0 || cmp(b, a) <= 0
  }

  /** Every element may come before every later one. */
  ghost predicate SortedBy<T>(s: seq<T>, key: T -> string, cmp: (string, string) -> int)
  {
    forall i, j :: 0 <= i < j < |s| ==> cmp(key(s[i]), key(s[j])) <= 0
  }

  /** Exchanges two elements of the array. */
  method Swap<T>(a: array<T>, i: nat, j: nat)
    requires i < j < a.Length
    modifies a
    ensures a[..] == old(a[..])[i := old(a[..])[j]][j := old(a[..])[i]]
    ensures multiset(a[..]) == multiset(old(a[..]))
  {
    a[i], a[j] := a[j], a[i];
  }

  /**
   * Half-way through inserting element `i`: the element now at `j` may come
   * before everything after it up to `i`, and the rest of `s[..i + 1]` is in
   * order.
   */
  ghost predicate Inserting<T>(s: seq<T>, j: nat, i: nat, key: T -> string, cmp: (string, string) -> int)
    requires j <= i < |s|
  {
    && (forall p, q :: 0 <= p < q <= i && p != j && q != j ==> cmp(key(s[p]), key(s[q])) <= 0)
    && (forall q :: j < q <= i ==> cmp(key(s[j]), key(s[q])) <= 0)
  }

  /** Before any move, the new element sits at `i` after a sorted prefix. */
  lemma InsertingStart<T>(s: seq<T>, i: nat, key: T -> string, cmp: (string, string) -> int)
    requires i < |s| && SortedBy(s[..i], key, cmp)
    ensures Inserting(s, i, i, key, cmp)
  {
    forall p, q | 0 <= p < q <= i && p != i && q != i ensures cmp(key(s[p]), key(s[q])) <= 0 {
      assert s[..i][p] == s[p] && s[..i][q] == s[q];
    }
  }

  /** Swapping the element at `j` with a strictly greater left neighbour moves the insertion one step left. */
  lemma InsertingStep<T>(s: seq<T>, j: nat, i: nat, key: T -> string, cmp: (string, string) -> int)
    requires Total(cmp)
    requires 0 < j <= i < |s| && Inserting(s, j, i, key, cmp)
    requires cmp(key(s[j - 1]), key(s[j])) > 0
    ensures Inserting(s[j - 1 := s[j]][j := s[j - 1]], j - 1, i, key, cmp)
  {
    var t := s[j - 1 := s[j]][j := s[j - 1]];
    assert cmp(key(s[j]), key(s[j - 1])) <= 0;
    forall p, q | 0 <= p < q <= i && p != j - 1 && q != j - 1 ensures cmp(key(t[p]), key(t[q])) <= 0 {
      if q == j {
        assert t[p] == s[p] && t[q] == s[j - 1];
      } else if p == j {
        assert t[p] == s[j - 1] && t[q] == s[q];
      } else {
        assert t[p] == s[p] && t[q] == s[q];
      }
    }
    forall q | j - 1 < q <= i ensures cmp(key(t[j - 1]), key(t[q])) <= 0 {
      if q > j {
        assert t[q] == s[q];
      }
    }
  }

  /** The insertion is over once the element reaches the front or a left neighbour that may precede it. */
  lemma InsertingDone<T>(s: seq<T>, j: nat, i: nat, key: T -> string, cmp: (string, string) -> int)
    requires TotalPreorder(cmp)
    requires j <= i < |s| && Inserting(s, j, i, key, cmp)
    requires j == 0 || cmp(key(s[j - 1]), key(s[j])) <= 0
    ensures SortedBy(s[..i + 1], key, cmp)
  {
    var u := s[..i + 1];
    forall p, q | 0 <= p < q < |u| ensures cmp(key(u[p]), key(u[q])) <= 0 {
      if q == j && p < j - 1 {
        assert cmp(key(s[p]), key(s[j - 1])) <= 0;
      }
    }
  }

  /** One step of the insertion: swap the element at `j` with its strictly greater left neighbour. */
  method InsertionSwap<T>(a: array<T>, j: nat, i: nat, key: T -> string, cmp: (string, string) -> int)
    requires Total(cmp)
    requires 0 < j <= i < a.Length && Inserting(a[..], j, i, key, cmp)
    requires cmp(key(a[j - 1]), key(a[j])) > 0
    modifies a
    ensures Inserting(a[..], j - 1, i, key, cmp)
    ensures multiset(a[..]) == multiset(old(a[..]))
  {
    InsertingStep(a[..], j, i, key, cmp);
    Swap(a, j - 1, j);
  }

  /**
   * The loop of the insertion: swaps the element at `i` left while its left
   * neighbour is strictly greater, and returns where it stops.
   */
  method SinkLeft<T>(a: array<T>, i: nat, key: T -> string, cmp: (string, string) -> int) returns (j: nat)
    requires Total(cmp)
    requires i < a.Length && Inserting(a[..], i, i, key, cmp)
    modifies a
    ensures j <= i && Inserting(a[..], j, i, key, cmp)
    ensures j == 0 || cmp(key(a[j - 1]), key(a[j])) <= 0
    ensures multiset(a[..]) == multiset(old(a[..]))
  {
    j := i;
    while j > 0 && cmp(key(a[j - 1]), key(a[j])) > 0
      invariant 0 <= j <= i
      invariant Inserting(a[..], j, i, key, cmp)
      invariant multiset(a[..]) == multiset(old(a[..]))
    {
      InsertionSwap(a, j, i, key, cmp);
      j := j - 1;
    }
  }

  /**
   * Moves `a[i]` left past every strictly greater element before it, so
   * that the first `i + 1` elements are sorted.
   */
  method InsertLast<T>(a: array<T>, i: nat, key: T -> string, cmp: (string, string) -> int)
    requires TotalPreorder(cmp)
    requires i < a.Length && SortedBy(a[..i], key, cmp)
    modifies a
    ensures SortedBy(a[..i + 1], key, cmp)
    ensures multiset(a[..]) == multiset(old(a[..]))
  {
    InsertingStart(a[..], i, key, cmp);
    var j := SinkLeft(a, i, key, cmp);
    InsertingDone(a[..], j, i, key, cmp);
  }

  /**
   * `a.sort((x, y) => cmp(key(x), key(y)))`, in place. Insertion sort that
   * only moves an element past a strictly greater one; stability is not
   * proved.
   */
  method SortByKey<T>(a: array<T>, key: T -> string, cmp: (string, string) -> int)
    requires TotalPreorder(cmp)
    modifies a
    ensures SortedBy(a[..], key, cmp)
    ensures multiset(a[..]) == multiset(old(a[..]))
  {
    for i := 0 to a.Length
      invariant SortedBy(a[..i], key, cmp)
      invariant multiset(a[..]) == multiset(old(a[..]))
    {
      InsertLast(a, i, key, cmp);
    }
    assert a[..a.Length] == a[..];
  }

  // ---------------------------------------------------------------------
  // Which files go where
  // ---------------------------------------------------------------------

  /** The chapter folder a picked file is grouped under, if any. */
  function FolderOf(f: File): Option<string>
  {
    ChapterFolderOf(f.relativePath)
  }

  /** The files grouped under `folder`, in the order they were picked. */
  function Bucket(files: seq<File>, folder: string): (b: seq<File>)
    ensures |b| <= |files|
    ensures forall f :: f in b ==> f in files && FolderOf(f) == Some(folder)
  {
    if files == [] then []
    else
      var last := files[|files| - 1];
      Bucket(files[..|files| - 1], folder) + (if FolderOf(last) == Some(folder) then [last] else [])
  }

  /** The files `handleDirectory` keeps (those with a chapter folder), in the order they were picked. */
  function Kept(files: seq<File>): (kept: seq<File>)
    ensures |kept| <= |files|
    ensures forall f :: f in kept <==> f in files && FolderOf(f).Some?
  {
    if files == [] then []
    else
      var last := files[|files| - 1];
      Kept(files[..|files| - 1]) + (if FolderOf(last).Some? then [last] else [])
  }

  /** Looking at one more file adds it to its own folder's bucket and to no other. */
  lemma BucketExtend(files: seq<File>, n: nat, k: string)
    requires n < |files|
    ensures Bucket(files[..n + 1], k)
            == Bucket(files[..n], k) + (if FolderOf(files[n]) == Some(k) then [files[n]] else [])
  {
    assert files[..n + 1][..n] == files[..n];
  }

  /** Every kept file is in the bucket of its own folder. */
  lemma {:induction false} InOwnBucket(files: seq<File>, f: File)
    requires f in files && FolderOf(f).Some?
    ensures f in Bucket(files, FolderOf(f).value)
  {
    var init := files[..|files| - 1];
    if f != files[|files| - 1] {
      assert f in init by { assert files == init + [files[|files| - 1]]; }
      InOwnBucket(init, f);
    }
  }

  // ---------------------------------------------------------------------
  // Building chapters
  // ---------------------------------------------------------------------

  /** One entry `[folder, files]` of the chapter map. */
  datatype Entry = Entry(folder: string, files: seq<File>)

  function EntryFolder(e: Entry): string { e.folder }

  function FilePath(f: File): string { f.relativePath }

  function ChapterId(c: Chapter): string { c.id }

  /** A name as its own sort key. */
  function Name(s: string): string { s }

  /** `files.map((file) => ({ id: file.webkitRelativePath, url: URL.createObjectURL(file) }))`. */
  function PagesOf(files: seq<File>): (pages: seq<Page>)
    ensures |pages| == |files|
    ensures forall i :: 0 <= i < |files| ==> pages[i] == Page(files[i].relativePath, ObjectUrl(files[i]))
  {
    seq(|files|, i requires 0 <= i < |files| => Page(files[i].relativePath, ObjectUrl(files[i])))
  }

  /** The files behind a chapter's pages. */
  function Sources(pages: seq<Page>): (files: seq<File>)
    ensures |files| == |pages|
    ensures forall i :: 0 <= i < |pages| ==> files[i] == pages[i].url.source
  {
    seq(|pages|, i requires 0 <= i < |pages| => pages[i].url.source)
  }

  /** The chapters' ids, in order. */
  function Ids(chapters: seq<Chapter>): (ids: seq<string>)
    ensures |ids| == |chapters|
    ensures forall i :: 0 <= i < |chapters| ==> ids[i] == chapters[i].id
  {
    seq(|chapters|, i requires 0 <= i < |chapters| => chapters[i].id)
  }

  /** Each page's id is the relative path of the file it shows. */
  ghost predicate PageIdsArePaths(pages: seq<Page>)
  {
    forall i :: 0 <= i < |pages| ==> pages[i].id == pages[i].url.source.relativePath
  }

  /**
   * The chapters group the kept files: one chapter per folder that has a
   * file, titled by its folder, whose pages show exactly that folder's files.
   */
  ghost predicate Grouped(files: seq<File>, chapters: seq<Chapter>)
  {
    && DistinctIds(chapters)
    && CoversFolders(files, chapters)
    && PagesAreBuckets(files, chapters)
    && (forall i :: 0 <= i < |chapters| ==> chapters[i].title == chapters[i].id)
    && (forall i :: 0 <= i < |chapters| ==> PageIdsArePaths(chapters[i].pages))
  }

  /** No two chapters share an id. */
  ghost predicate DistinctIds(chapters: seq<Chapter>)
  {
    DistinctBy(chapters, ChapterId)
  }

  /** There is a chapter for a folder exactly when some file is filed under it. */
  ghost predicate CoversFolders(files: seq<File>, chapters: seq<Chapter>)
  {
    forall k :: k in Ids(chapters) <==> Bucket(files, k) != []
  }

  /** Each chapter's pages show its folder's files, each as often as it was picked. */
  ghost predicate PagesAreBuckets(files: seq<File>, chapters: seq<Chapter>)
  {
    forall i :: 0 <= i < |chapters| ==>
      multiset(Sources(chapters[i].pages)) == multiset(Bucket(files, chapters[i].id))
  }

  /** Chapters in folder-name order, and each chapter's pages in path order. */
  ghost predicate Ordered(chapters: seq<Chapter>, cmp: (string, string) -> int)
  {
    && SortedBy(chapters, ChapterId, cmp)
    && (forall c :: c in chapters ==> PagesSorted(c.pages, cmp))
  }

  /** Pages in path order. */
  ghost predicate PagesSorted(pages: seq<Page>, cmp: (string, string) -> int)
  {
    SortedBy(pages, PageId, cmp)
  }

  /** Chapter `c` is what the `.map` makes of entry `e`. */
  ghost predicate BuiltFrom(c: Chapter, e: Entry, cmp: (string, string) -> int)
  {
    && c.id == e.folder && c.title == e.folder
    && multiset(Sources(c.pages)) == multiset(e.files)
    && PageIdsArePaths(c.pages)
    && PagesSorted(c.pages, cmp)
  }

  /** A sequence with two equal elements holds that value at least twice. */
  lemma RepeatedTwice<T>(s: seq<T>, p: nat, q: nat)
    requires p < q < |s| && s[p] == s[q]
    ensures multiset(s)[s[p]] >= 2
  {
    assert s == s[..q] + s[q..];
    assert s[p] in s[..q];
    assert s[q] in s[q..];
  }

  /** In a sequence with distinct keys, no value occurs twice. */
  lemma {:induction false} DistinctKeysOnce<T>(s: seq<T>, key: T -> string)
    requires DistinctBy(s, key)
    ensures forall x :: multiset(s)[x] <= 1
  {
    if s != [] {
      DistinctKeysOnce(s[1..], key);
      assert s == [s[0]] + s[1..];
      assert s[0] !in s[1..];
    }
  }

  /** Reordering a sequence keeps its keys distinct. */
  lemma DistinctKeysPermuted<T>(a: seq<T>, b: seq<T>, key: T -> string)
    requires multiset(a) == multiset(b)
    requires DistinctBy(a, key)
    ensures DistinctBy(b, key)
  {
    DistinctKeysOnce(a, key);
    forall p, q | 0 <= p < q < |b| ensures key(b[p]) != key(b[q]) {
      if key(b[p]) == key(b[q]) {
        assert b[p] in multiset(a) && b[q] in multiset(a);
        var x :| 0 <= x < |a| && a[x] == b[p];
        var y :| 0 <= y < |a| && a[y] == b[q];
        assert x == y;
        RepeatedTwice(b, p, q);
        assert false;
      }
    }
  }

  /**
   * The chapter folders of the files in the order they first turn up: the
   * order in which a `Map` filled by the loop holds its keys.
   */
  function FoldersSeen(files: seq<File>): seq<string>
  {
    if files == [] then []
    else
      var seen := FoldersSeen(files[..|files| - 1]);
      var folder := FolderOf(files[|files| - 1]);
      if folder.Some? && folder.value !in seen then seen + [folder.value] else seen
  }

  /** The position of the first file filed under `k`, or `|files|` when there is none. */
  function FirstFiled(files: seq<File>, k: string): (r: nat)
    ensures r <= |files|
    ensures r < |files| ==> FolderOf(files[r]) == Some(k)
    ensures forall j :: 0 <= j < r ==> FolderOf(files[j]) != Some(k)
  {
    if files == [] then 0
    else
      var init := files[..|files| - 1];
      var r := FirstFiled(init, k);
      assert forall j :: 0 <= j < |init| ==> init[j] == files[j];
      if r < |init| then r
      else if FolderOf(files[|files| - 1]) == Some(k) then |init|
      else |files|
  }

  /** A folder has been seen exactly when some file is filed under it. */
  lemma {:induction false} SeenIffFiled(files: seq<File>, k: string)
    ensures k in FoldersSeen(files) <==> FirstFiled(files, k) < |files|
  {
    if files != [] {
      SeenIffFiled(files[..|files| - 1], k);
    }
  }

  /**
   * The folders are seen in the order of their first files: of two folders,
   * the one seen earlier has its first file earlier. Each is seen once.
   */
  lemma {:induction false} FoldersSeenInFirstFileOrder(files: seq<File>)
    ensures forall p, q :: 0 <= p < q < |FoldersSeen(files)| ==>
              FirstFiled(files, FoldersSeen(files)[p]) < FirstFiled(files, FoldersSeen(files)[q])
  {
    if files != [] {
      var init := files[..|files| - 1];
      var seen := FoldersSeen(init);
      FoldersSeenInFirstFileOrder(init);
      forall x | x in seen ensures FirstFiled(files, x) == FirstFiled(init, x) {
        SeenIffFiled(init, x);
      }
      var folder := FolderOf(files[|files| - 1]);
      if folder.Some? && folder.value !in seen {
        SeenIffFiled(init, folder.value);
        assert FirstFiled(files, folder.value) == |init|;
        forall p | 0 <= p < |seen| ensures FirstFiled(files, seen[p]) < |init| {
          SeenIffFiled(init, seen[p]);
        }
      }
    }
  }

  /** One more file appends its folder to the seen folders exactly when the map gains that key. */
  lemma SeenStep(files: seq<File>, n: nat, folder: Option<string>, keys: seq<string>,
                 buckets: map<string, seq<File>>, keys': seq<string>)
    requires n < |files| && keys == FoldersSeen(files[..n])
    requires forall k :: k in buckets <==> k in keys
    requires folder == FolderOf(files[n])
    requires folder.None? ==> keys' == keys
    requires folder.Some? ==> keys' == (if folder.value in buckets then keys else keys + [folder.value])
    ensures keys' == FoldersSeen(files[..n + 1])
  {
    assert files[..n + 1][..n] == files[..n];
  }

  /** The map's keys, in insertion order, are distinct and are exactly its domain. */
  ghost predicate KeysInOrder(keys: seq<string>, buckets: map<string, seq<File>>)
  {
    && (forall k :: k in buckets <==> k in keys)
    && DistinctNames(keys)
  }

  /** The map holds, under each folder with a non-empty bucket and only there, that bucket. */
  ghost predicate HoldsBuckets(files: seq<File>, buckets: map<string, seq<File>>)
  {
    && (forall k :: k in buckets <==> Bucket(files, k) != [])
    && (forall k :: k in buckets ==> buckets[k] == Bucket(files, k))
  }

  /** Appending a key only when it is new keeps the keys distinct and in step with the domain. */
  lemma KeysStep(keys: seq<string>, buckets: map<string, seq<File>>, folder: Option<string>,
                 keys': seq<string>, buckets': map<string, seq<File>>)
    requires KeysInOrder(keys, buckets)
    requires folder.None? ==> keys' == keys && buckets' == buckets
    requires folder.Some? ==>
               && keys' == (if folder.value in buckets then keys else keys + [folder.value])
               && buckets'.Keys == buckets.Keys + {folder.value}
    ensures KeysInOrder(keys', buckets')
  {
  }

  /** Pushing file `n` onto its folder's bucket keeps the map holding the buckets of one more file. */
  lemma BucketsStep(files: seq<File>, n: nat, folder: Option<string>,
                    buckets: map<string, seq<File>>, buckets': map<string, seq<File>>)
    requires n < |files| && HoldsBuckets(files[..n], buckets)
    requires folder == FolderOf(files[n])
    requires folder.None? ==> buckets' == buckets
    requires folder.Some? ==>
               buckets' == buckets[folder.value := (if folder.value in buckets then buckets[folder.value] else []) + [files[n]]]
    ensures HoldsBuckets(files[..n + 1], buckets')
  {
    forall k
      ensures k in buckets' <==> Bucket(files[..n + 1], k) != []
      ensures k in buckets' ==> buckets'[k] == Bucket(files[..n + 1], k)
    {
      BucketExtend(files, n, k);
    }
  }

  /**
   * One pass of the `for (const file of files)` body: skip a file with an
   * empty path or no chapter folder, else push it under its folder, adding
   * the key (with an empty bucket) first when it is new.
   */
  method AddFile(keys: seq<string>, buckets: map<string, seq<File>>, file: File)
    returns (folder: Option<string>, keys': seq<string>, buckets': map<string, seq<File>>)
    ensures folder == FolderOf(file)
    ensures folder.None? ==> keys' == keys && buckets' == buckets
    ensures folder.Some? ==>
              && keys' == (if folder.value in buckets then keys else keys + [folder.value])
              && buckets' == buckets[folder.value := (if folder.value in buckets then buckets[folder.value] else []) + [file]]
  {
    keys', buckets' := keys, buckets;
    var rel := file.relativePath;
    if rel == [] {
      return None, keys', buckets';
    }
    folder := FindChapterFolder(Segments(rel));
    if folder.None? {
      return;
    }
    var k := folder.value;
    if k !in buckets' {
      keys' := keys' + [k];
      buckets' := buckets'[k := []];
    }
    buckets' := buckets'[k := buckets'[k] + [file]];
  }

  /**
   * The `for (const file of files)` loop of `handleDirectory`: the chapter
   * map's keys in insertion order, and the bucket pushed to under each key.
   */
  method GroupByFolder(files: seq<File>) returns (keys: seq<string>, buckets: map<string, seq<File>>)
    ensures keys == FoldersSeen(files)
    ensures KeysInOrder(keys, buckets)
    ensures HoldsBuckets(files, buckets)
  {
    keys := [];
    buckets := map[];
    for n := 0 to |files|
      invariant keys == FoldersSeen(files[..n])
      invariant KeysInOrder(keys, buckets)
      invariant HoldsBuckets(files[..n], buckets)
    {
      keys, buckets := GroupOne(files, n, keys, buckets);
    }
    assert files[..|files|] == files;
  }

  /** The loop body of `GroupByFolder` on file `n`, keeping its three invariants. */
  method GroupOne(files: seq<File>, n: nat, keys: seq<string>, buckets: map<string, seq<File>>)
    returns (keys': seq<string>, buckets': map<string, seq<File>>)
    requires n < |files|
    requires keys == FoldersSeen(files[..n]) && KeysInOrder(keys, buckets) && HoldsBuckets(files[..n], buckets)
    ensures keys' == FoldersSeen(files[..n + 1])
    ensures KeysInOrder(keys', buckets')
    ensures HoldsBuckets(files[..n + 1], buckets')
  {
    var folder;
    folder, keys', buckets' := AddFile(keys, buckets, files[n]);
    GroupStep(files, n, folder, keys, buckets, keys', buckets');
  }

  /** What one pass of the loop body does to the keys and buckets keeps the loop's three invariants. */
  lemma GroupStep(files: seq<File>, n: nat, folder: Option<string>, keys: seq<string>, buckets: map<string, seq<File>>,
                  keys': seq<string>, buckets': map<string, seq<File>>)
    requires n < |files| && folder == FolderOf(files[n])
    requires keys == FoldersSeen(files[..n]) && KeysInOrder(keys, buckets) && HoldsBuckets(files[..n], buckets)
    requires folder.None? ==> keys' == keys && buckets' == buckets
    requires folder.Some? ==>
               && keys' == (if folder.value in buckets then keys else keys + [folder.value])
               && buckets' == buckets[folder.value := (if folder.value in buckets then buckets[folder.value] else []) + [files[n]]]
    ensures keys' == FoldersSeen(files[..n + 1])
    ensures KeysInOrder(keys', buckets')
    ensures HoldsBuckets(files[..n + 1], buckets')
  {
    SeenStep(files, n, folder, keys, buckets, keys');
    KeysStep(keys, buckets, folder, keys', buckets');
    BucketsStep(files, n, folder, buckets, buckets');
  }

  /**
   * One step of the chapter `.map`: the entry's files sorted by relative
   * path in place, then made into pages of a chapter named after the folder.
   */
  method ChapterOfEntry(e: Entry, cmp: (string, string) -> int) returns (c: Chapter)
    requires TotalPreorder(cmp)
    ensures BuiltFrom(c, e, cmp)
  {
    var pageFiles := new File[|e.files|](j requires 0 <= j < |e.files| => e.files[j]);
    assert pageFiles[..] == e.files;
    SortByKey(pageFiles, FilePath, cmp);
    var pages := PagesOf(pageFiles[..]);
    assert Sources(pages) == pageFiles[..];
    c := Chapter(e.folder, e.folder, pages);
  }

  /** Each chapter built from a map entry shows exactly that folder's bucket. */
  lemma AssembledPages(files: seq<File>, buckets: map<string, seq<File>>, es: seq<Entry>,
                       sorted: seq<Entry>, chapters: seq<Chapter>, cmp: (string, string) -> int)
    requires forall k :: k in buckets ==> buckets[k] == Bucket(files, k)
    requires forall e :: e in es ==> e.folder in buckets && e.files == buckets[e.folder]
    requires multiset(es) == multiset(sorted)
    requires |chapters| == |sorted| && forall i :: 0 <= i < |sorted| ==> BuiltFrom(chapters[i], sorted[i], cmp)
    ensures PagesAreBuckets(files, chapters)
  {
    forall i | 0 <= i < |chapters|
      ensures multiset(Sources(chapters[i].pages)) == multiset(Bucket(files, chapters[i].id))
    {
      assert BuiltFrom(chapters[i], sorted[i], cmp);
      assert sorted[i] in multiset(es);
    }
  }

  /** There is a chapter for a folder exactly when some file was filed under it. */
  lemma AssembledFolders(files: seq<File>, keys: seq<string>, buckets: map<string, seq<File>>,
                         es: seq<Entry>, sorted: seq<Entry>, chapters: seq<Chapter>,
                         cmp: (string, string) -> int)
    requires forall k :: k in buckets <==> k in keys
    requires forall k :: k in buckets <==> Bucket(files, k) != []
    requires |es| == |keys| && forall j :: 0 <= j < |keys| ==> es[j].folder == keys[j]
    requires multiset(es) == multiset(sorted)
    requires |chapters| == |sorted| && forall i :: 0 <= i < |sorted| ==> chapters[i].id == sorted[i].folder
    ensures CoversFolders(files, chapters)
  {
    forall k | Bucket(files, k) != [] ensures k in Ids(chapters) {
      var x :| 0 <= x < |keys| && keys[x] == k;
      assert es[x] in multiset(sorted);
      var i :| 0 <= i < |sorted| && sorted[i] == es[x];
      assert Ids(chapters)[i] == k;
    }
    forall k | k in Ids(chapters) ensures Bucket(files, k) != [] {
      var i :| 0 <= i < |chapters| && chapters[i].id == k;
      assert sorted[i] in multiset(es);
      var x :| 0 <= x < |es| && es[x] == sorted[i];
      assert keys[x] == k;
    }
  }

  /** Chapters built from entries sorted by distinct folders are in order, with distinct ids. */
  lemma AssembledOrderAndIds(sorted: seq<Entry>, chapters: seq<Chapter>, cmp: (string, string) -> int)
    requires SortedBy(sorted, EntryFolder, cmp)
    requires DistinctBy(sorted, EntryFolder)
    requires |chapters| == |sorted| && forall i :: 0 <= i < |sorted| ==> BuiltFrom(chapters[i], sorted[i], cmp)
    ensures DistinctIds(chapters)
    ensures forall i :: 0 <= i < |chapters| ==> chapters[i].title == chapters[i].id
    ensures forall i :: 0 <= i < |chapters| ==> PageIdsArePaths(chapters[i].pages)
    ensures Ordered(chapters, cmp)
  {
    forall c | c in chapters ensures PagesSorted(c.pages, cmp) {
      var i :| 0 <= i < |chapters| && chapters[i] == c;
      assert BuiltFrom(chapters[i], sorted[i], cmp);
    }
    forall i, j | 0 <= i < j < |chapters|
      ensures chapters[i].id != chapters[j].id && cmp(chapters[i].id, chapters[j].id) <= 0
    {
      assert BuiltFrom(chapters[i], sorted[i], cmp) && BuiltFrom(chapters[j], sorted[j], cmp);
      assert EntryFolder(sorted[i]) != EntryFolder(sorted[j]);
      assert cmp(EntryFolder(sorted[i]), EntryFolder(sorted[j])) <= 0;
    }
  }

  /** The chapter `.map` over the sorted entries: one chapter per entry, in the same order. */
  method ChaptersOf(sorted: seq<Entry>, cmp: (string, string) -> int) returns (chapters: seq<Chapter>)
    requires TotalPreorder(cmp)
    ensures |chapters| == |sorted|
    ensures forall i :: 0 <= i < |sorted| ==> BuiltFrom(chapters[i], sorted[i], cmp)
  {
    chapters := [];
    for m := 0 to |sorted|
      invariant |chapters| == m
      invariant forall i :: 0 <= i < m ==> BuiltFrom(chapters[i], sorted[i], cmp)
    {
      var c := ChapterOfEntry(sorted[m], cmp);
      ghost var prev := chapters;
      chapters := chapters + [c];
      assert forall i :: 0 <= i < m ==> chapters[i] == prev[i];
    }
  }

  /** `[...chapterMap.entries()]`: one entry per key, in the map's key order. */
  function Entries(keys: seq<string>, buckets: map<string, seq<File>>): (es: seq<Entry>)
    requires forall k :: k in keys ==> k in buckets
    ensures |es| == |keys|
    ensures forall j :: 0 <= j < |keys| ==> es[j].folder == keys[j] && es[j].files == buckets[keys[j]]
  {
    seq(|keys|, j requires 0 <= j < |keys| => Entry(keys[j], buckets[keys[j]]))
  }

  /** The entries of a map with distinct keys have distinct folders, each with its own bucket. */
  lemma EntriesOfDistinctKeys(keys: seq<string>, buckets: map<string, seq<File>>)
    requires KeysInOrder(keys, buckets)
    ensures DistinctBy(Entries(keys, buckets), EntryFolder)
    ensures forall e :: e in Entries(keys, buckets) ==> e.folder in buckets && e.files == buckets[e.folder]
  {
    var es := Entries(keys, buckets);
    forall p, q | 0 <= p < q < |es| ensures EntryFolder(es[p]) != EntryFolder(es[q]) {
      assert es[p].folder == keys[p] && es[q].folder == keys[q];
    }
  }

  /**
   * Sorting the map's entries by folder and building one chapter from each
   * groups the files and leaves the chapters in order.
   */
  lemma Assembled(files: seq<File>, keys: seq<string>, buckets: map<string, seq<File>>,
                  sorted: seq<Entry>, chapters: seq<Chapter>, cmp: (string, string) -> int)
    requires KeysInOrder(keys, buckets) && HoldsBuckets(files, buckets)
    requires multiset(sorted) == multiset(Entries(keys, buckets))
    requires SortedBy(sorted, EntryFolder, cmp)
    requires |chapters| == |sorted| && forall i :: 0 <= i < |sorted| ==> BuiltFrom(chapters[i], sorted[i], cmp)
    ensures Grouped(files, chapters)
    ensures Ordered(chapters, cmp)
  {
    var es := Entries(keys, buckets);
    EntriesOfDistinctKeys(keys, buckets);
    DistinctKeysPermuted(es, sorted, EntryFolder);
    AssembledPages(files, buckets, es, sorted, chapters, cmp);
    AssembledFolders(files, keys, buckets, es, sorted, chapters, cmp);
    AssembledOrderAndIds(sorted, chapters, cmp);
  }

  /**
   * `handleDirectory`'s computation of the new chapter list from the picked
   * files. `cmp` is the numeric `localeCompare`.
   */
  method Ingest(files: seq<File>, cmp: (string, string) -> int) returns (chapters: seq<Chapter>)
    requires TotalPreorder(cmp)
    ensures Grouped(files, chapters)
    ensures Ordered(chapters, cmp)
  {
    var keys, buckets := GroupByFolder(files);

    // [...chapterMap.entries()].sort(by folder)
    var es := Entries(keys, buckets);
    var entries := new Entry[|es|](j requires 0 <= j < |es| => es[j]);
    assert entries[..] == es;
    SortByKey(entries, EntryFolder, cmp);
    var sorted := entries[..];

    chapters := ChaptersOf(sorted, cmp);
    Assembled(files, keys, buckets, sorted, chapters, cmp);
  }

  // ---------------------------------------------------------------------
  // The chapters partition the kept files
  // ---------------------------------------------------------------------

  /** A file with no chapter folder in its path is on no page of any chapter. */
  lemma DroppedFileOnNoPage(files: seq<File>, chapters: seq<Chapter>, f: File)
    requires PagesAreBuckets(files, chapters)
    requires FolderOf(f).None?
    ensures forall i :: 0 <= i < |chapters| ==> f !in Sources(chapters[i].pages)
  {
    forall i | 0 <= i < |chapters| ensures f !in Sources(chapters[i].pages) {
      assert f !in multiset(Bucket(files, chapters[i].id));
    }
  }

  /** A chapter's pages show exactly the files of its folder's bucket. */
  lemma OnPageIffInBucket(files: seq<File>, chapters: seq<Chapter>, j: nat, f: File)
    requires PagesAreBuckets(files, chapters) && j < |chapters|
    ensures f in Sources(chapters[j].pages) <==> f in Bucket(files, chapters[j].id)
  {
    assert f in Sources(chapters[j].pages) <==> f in multiset(Sources(chapters[j].pages));
    assert f in Bucket(files, chapters[j].id) <==> f in multiset(Bucket(files, chapters[j].id));
  }

  /**
   * A kept file is on a page of the chapter named after its first chapter
   * folder, and of no other chapter.
   */
  lemma KeptFileInOneChapter(files: seq<File>, chapters: seq<Chapter>, f: File)
    requires CoversFolders(files, chapters) && PagesAreBuckets(files, chapters)
    requires f in files && FolderOf(f).Some?
    ensures exists i :: 0 <= i < |chapters| && chapters[i].id == FolderOf(f).value
                        && f in Sources(chapters[i].pages)
    ensures forall i :: 0 <= i < |chapters| && f in Sources(chapters[i].pages) ==>
                        chapters[i].id == FolderOf(f).value
  {
    var k := FolderOf(f).value;
    InOwnBucket(files, f);
    assert k in Ids(chapters);
    var i :| 0 <= i < |chapters| && Ids(chapters)[i] == k;
    OnPageIffInBucket(files, chapters, i, f);
    forall j | 0 <= j < |chapters| && f in Sources(chapters[j].pages) ensures chapters[j].id == k {
      OnPageIffInBucket(files, chapters, j, f);
    }
  }

  /** How many of the files are filed under one of the folders `ks`. */
  function CountIn(files: seq<File>, ks: set<string>): nat
  {
    if files == [] then 0
    else
      var last := files[|files| - 1];
      CountIn(files[..|files| - 1], ks) + (if FolderOf(last).Some? && FolderOf(last).value in ks then 1 else 0)
  }

  /** Adding a folder to `ks` adds the size of its bucket. */
  lemma {:induction false} CountInAdd(files: seq<File>, ks: set<string>, k: string)
    requires k !in ks
    ensures CountIn(files, ks + {k}) == CountIn(files, ks) + |Bucket(files, k)|
  {
    if files != [] {
      CountInAdd(files[..|files| - 1], ks, k);
    }
  }

  /** Counting under a set of folders that holds every kept file's folder counts every kept file. */
  lemma {:induction false} CountInAll(files: seq<File>, ks: set<string>)
    requires forall f :: f in files && FolderOf(f).Some? ==> FolderOf(f).value in ks
    ensures CountIn(files, ks) == |Kept(files)|
  {
    if files != [] {
      var init := files[..|files| - 1];
      assert forall f :: f in init ==> f in files;
      CountInAll(init, ks);
    }
  }

  /** Counting under no folder counts nothing. */
  lemma {:induction false} CountInNone(files: seq<File>)
    ensures CountIn(files, {}) == 0
  {
    if files != [] {
      CountInNone(files[..|files| - 1]);
    }
  }

  /** The number of pages over all chapters. */
  function TotalPages(chapters: seq<Chapter>): nat
  {
    if chapters == [] then 0
    else TotalPages(chapters[..|chapters| - 1]) + |chapters[|chapters| - 1].pages|
  }

  /** The chapters' ids as a set. */
  function IdSet(chapters: seq<Chapter>): set<string>
  {
    set c | c in chapters :: c.id
  }

  /** One more chapter adds its pages to the total and its id to the id set. */
  lemma PrefixStep(chapters: seq<Chapter>, m: nat)
    requires 0 < m <= |chapters|
    ensures TotalPages(chapters[..m]) == TotalPages(chapters[..m - 1]) + |chapters[m - 1].pages|
    ensures IdSet(chapters[..m]) == IdSet(chapters[..m - 1]) + {chapters[m - 1].id}
  {
    assert chapters[..m][..m - 1] == chapters[..m - 1];
    assert chapters[..m] == chapters[..m - 1] + [chapters[m - 1]];
  }

  /** With distinct ids, a chapter's id is not among those before it. */
  lemma FreshId(chapters: seq<Chapter>, m: nat)
    requires DistinctIds(chapters) && 0 < m <= |chapters|
    ensures chapters[m - 1].id !in IdSet(chapters[..m - 1])
  {
    forall c | c in chapters[..m - 1] ensures c.id != chapters[m - 1].id {
      var i :| 0 <= i < m - 1 && chapters[..m - 1][i] == c;
      assert c == chapters[i];
    }
  }

  /** A chapter has as many pages as its folder has files. */
  lemma PageCountIsBucketSize(files: seq<File>, chapters: seq<Chapter>, i: nat)
    requires PagesAreBuckets(files, chapters) && i < |chapters|
    ensures |chapters[i].pages| == |Bucket(files, chapters[i].id)|
  {
    var c := chapters[i];
    assert |multiset(Sources(c.pages))| == |multiset(Bucket(files, c.id))|;
  }

  /** The pages of the first `m` chapters are the files filed under their folders. */
  lemma {:induction false} PrefixPagesCounted(files: seq<File>, chapters: seq<Chapter>, m: nat)
    requires DistinctIds(chapters) && PagesAreBuckets(files, chapters)
    requires m <= |chapters|
    ensures TotalPages(chapters[..m]) == CountIn(files, IdSet(chapters[..m]))
  {
    if m == 0 {
      assert IdSet(chapters[..0]) == {};
      CountInNone(files);
    } else {
      PrefixPagesCounted(files, chapters, m - 1);
      PrefixStep(chapters, m);
      FreshId(chapters, m);
      PageCountIsBucketSize(files, chapters, m - 1);
      CountInAdd(files, IdSet(chapters[..m - 1]), chapters[m - 1].id);
    }
  }

  /** The chapters hold, all together, exactly as many pages as there are kept files. */
  lemma TotalPagesIsKeptCount(files: seq<File>, chapters: seq<Chapter>)
    requires Grouped(files, chapters)
    ensures TotalPages(chapters) == |Kept(files)|
  {
    PrefixPagesCounted(files, chapters, |chapters|);
    assert chapters[..|chapters|] == chapters;
    forall f | f in files && FolderOf(f).Some? ensures FolderOf(f).value in IdSet(chapters) {
      InOwnBucket(files, f);
      var k := FolderOf(f).value;
      assert k in Ids(chapters);
      var i :| 0 <= i < |chapters| && Ids(chapters)[i] == k;
      assert chapters[i] in chapters;
    }
    CountInAll(files, IdSet(chapters));
  }

  /** Ingestion yields no chapter exactly when no picked file has a chapter folder. */
  lemma NoChaptersIffNothingKept(files: seq<File>, chapters: seq<Chapter>)
    requires Grouped(files, chapters)
    ensures chapters == [] <==> Kept(files) == []
  {
    if Kept(files) != [] {
      KeptFileGivesChapter(files, chapters);
    }
    if chapters != [] {
      ChapterGivesKeptFile(files, chapters);
    }
  }

  /** A kept file makes a chapter. */
  lemma KeptFileGivesChapter(files: seq<File>, chapters: seq<Chapter>)
    requires CoversFolders(files, chapters) && Kept(files) != []
    ensures chapters != []
  {
    var f := Kept(files)[0];
    InOwnBucket(files, f);
    assert FolderOf(f).value in Ids(chapters);
  }

  /** A chapter is made from a kept file. */
  lemma ChapterGivesKeptFile(files: seq<File>, chapters: seq<Chapter>)
    requires CoversFolders(files, chapters) && chapters != []
    ensures Kept(files) != []
  {
    var k := Ids(chapters)[0];
    assert k in Ids(chapters);
    var b := Bucket(files, k);
    assert b[0] in b;
    assert b[0] in files && FolderOf(b[0]).Some?;
  }

  /**
   * The comparator never ties two different chapter folder names. This holds
   * of the numeric `localeCompare`: two such names differ in the letter case
   * of `chapter` or in a digit of one of two fixed-width numbers.
   */
  ghost predicate NoTiesBetweenFolders(cmp: (string, string) -> int)
  {
    forall a, b :: IsChapterFolder(a) && IsChapterFolder(b) && a != b ==> cmp(a, b) > 0 || cmp(b, a) > 0
  }

  /** No name occurs twice. */
  ghost predicate DistinctNames(s: seq<string>)
  {
    DistinctBy(s, Name)
  }

  /** Every name may come before every later one. */
  ghost predicate SortedNames(s: seq<string>, cmp: (string, string) -> int)
  {
    SortedBy(s, Name, cmp)
  }

  /** No two different names compare equal. */
  ghost predicate UntiedNames(s: seq<string>, cmp: (string, string) -> int)
  {
    forall x, y :: x in s && y in s && x != y ==> cmp(x, y) > 0 || cmp(y, x) > 0
  }

  /** Dropping the first name keeps the three properties and removes exactly that name. */
  lemma NamesTail(s: seq<string>, cmp: (string, string) -> int)
    requires s != [] && DistinctNames(s)
    ensures DistinctNames(s[1..])
    ensures SortedNames(s, cmp) ==> SortedNames(s[1..], cmp)
    ensures UntiedNames(s, cmp) ==> UntiedNames(s[1..], cmp)
    ensures forall x :: x in s[1..] <==> x in s && x != s[0]
  {
    forall x | x in s[1..] ensures x != s[0] {
      var p :| 0 <= p < |s[1..]| && s[1..][p] == x;
      assert s[p + 1] == x;
    }
  }

  /** Two sorted orderings of the same untied distinct names start with the same name. */
  lemma SortedHeadsAgree(a: seq<string>, b: seq<string>, cmp: (string, string) -> int)
    requires a != [] && DistinctNames(a) && SortedNames(a, cmp) && UntiedNames(a, cmp)
    requires DistinctNames(b) && SortedNames(b, cmp)
    requires forall x :: x in a <==> x in b
    ensures b != [] && a[0] == b[0]
  {
    assert a[0] in b;
    assert b[0] in a;
    var i :| 0 <= i < |a| && a[i] == b[0];
    var j :| 0 <= j < |b| && b[j] == a[0];
    assert i == 0 || j == 0;
  }

  /** Two orderings of the same distinct names, both sorted, with no two names tied, are the same. */
  lemma {:induction false} SortedWithoutTiesUnique(a: seq<string>, b: seq<string>, cmp: (string, string) -> int)
    requires DistinctNames(a) && SortedNames(a, cmp) && UntiedNames(a, cmp)
    requires DistinctNames(b) && SortedNames(b, cmp)
    requires forall x :: x in a <==> x in b
    ensures a == b
    decreases |a|
  {
    assert b != [] ==> b[0] in a;
    if a != [] {
      SortedHeadsAgree(a, b, cmp);
      NamesTail(a, cmp);
      NamesTail(b, cmp);
      SortedWithoutTiesUnique(a[1..], b[1..], cmp);
      assert a == [a[0]] + a[1..] && b == [b[0]] + b[1..];
    }
  }

  /** Every chapter of a grouping is named by a chapter folder name. */
  lemma IdsAreChapterFolders(files: seq<File>, chapters: seq<Chapter>, k: string)
    requires CoversFolders(files, chapters) && k in Ids(chapters)
    ensures IsChapterFolder(k)
  {
    var f := Bucket(files, k)[0];
    assert f in Bucket(files, k);
    ChapterFolderOfChoosesFirst(f.relativePath);
  }

  /**
   * With a comparator that never ties two folder names, the chapter order is
   * fixed by the picked files alone: the order the folders were first seen
   * in, which the sort receives, does not show through.
   */
  lemma ChapterOrderDetermined(files: seq<File>, c1: seq<Chapter>, c2: seq<Chapter>, cmp: (string, string) -> int)
    requires NoTiesBetweenFolders(cmp)
    requires Grouped(files, c1) && Ordered(c1, cmp)
    requires Grouped(files, c2) && Ordered(c2, cmp)
    ensures Ids(c1) == Ids(c2)
  {
    var a, b := Ids(c1), Ids(c2);
    forall x, y | x in a && y in a && x != y ensures cmp(x, y) > 0 || cmp(y, x) > 0 {
      IdsAreChapterFolders(files, c1, x);
      IdsAreChapterFolders(files, c1, y);
    }
    assert DistinctNames(a) && DistinctNames(b) && SortedNames(a, cmp) && SortedNames(b, cmp);
    SortedWithoutTiesUnique(a, b, cmp);
  }

  /** A bucket keeps the picked files' paths distinct when they were. */
  lemma {:induction false} BucketPathsDistinct(files: seq<File>, k: string)
    requires forall p, q :: 0 <= p < q < |files| ==> FilePath(files[p]) != FilePath(files[q])
    ensures forall p, q :: 0 <= p < q < |Bucket(files, k)| ==>
              FilePath(Bucket(files, k)[p]) != FilePath(Bucket(files, k)[q])
  {
    if files != [] {
      var init := files[..|files| - 1];
      var last := files[|files| - 1];
      BucketPathsDistinct(init, k);
      var b := Bucket(init, k);
      forall f | f in b ensures FilePath(f) != FilePath(last) {
        var x :| 0 <= x < |init| && init[x] == f;
      }
    }
  }

  /**
   * When the picked files have distinct relative paths, so do each
   * chapter's pages: a page id is unique within its chapter.
   */
  lemma PageIdsDistinct(files: seq<File>, chapters: seq<Chapter>)
    requires PagesAreBuckets(files, chapters)
    requires forall i :: 0 <= i < |chapters| ==> PageIdsArePaths(chapters[i].pages)
    requires forall p, q :: 0 <= p < q < |files| ==> files[p].relativePath != files[q].relativePath
    ensures forall i :: 0 <= i < |chapters| ==> DistinctPageIds(chapters[i].pages)
  {
    forall i | 0 <= i < |chapters| ensures DistinctPageIds(chapters[i].pages) {
      var c := chapters[i];
      BucketPathsDistinct(files, c.id);
      DistinctKeysPermuted(Bucket(files, c.id), Sources(c.pages), FilePath);
      assert PageIdsArePaths(c.pages);
    }
  }
}
