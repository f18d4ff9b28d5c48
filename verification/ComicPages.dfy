/** Serving a comic's pages by number: from the archive itself for a ZIP, from
    a cache entry's directory for the containers that are extracted. */
module ComicPages {
  import opened Common
  import opened CacheState
  import opened ImageSniff
  import opened ComicWalk
  import opened ComicRead
  import opened ComicExtraction
  import PageCache

  datatype Answer = Image(data: Bytes, end: ReadEnd, mime: string) | NotAnImagePage | Unreadable | NoSuchPage

  /** The ZIP arm: twelve bytes are read ahead of the stream and sniffed. */
  function Sniffed(e: ArchiveEntry): Answer {
    if e.opening != Opens then Unreadable
    else
      var head := if |e.data| < 12 then e.data else e.data[..12];
      if |e.data| < 12 && e.end != Eof then Unreadable
      else if SniffImageMime(head) == "" then NotAnImagePage
      else Image(e.data, e.end, SniffImageMime(head))
  }

  function ZipPage(es: seq<ArchiveEntry>, names: seq<string>, n: int): Answer {
    if n < 0 || n >= |names| then NoSuchPage
    else if First(es, names[n]) == |es| then Unreadable
    else Sniffed(es[First(es, names[n])])
  }

  method PageFromZip(es: seq<ArchiveEntry>, names: seq<string>, n: int) returns (a: Answer)
    ensures a == ZipPage(es, names, n)
  {
    if n < 0 || n >= |names| {
      return NoSuchPage;
    }
    var name := names[n];
    var i := 0;
    assert es[0..] == es;
    while i < |es|
      invariant 0 <= i <= |es|
      invariant First(es, name) == i + First(es[i..], name)
    {
      if es[i].name == name {
        return Sniffed(es[i]);
      }
      assert es[i..][1..] == es[i + 1..];
      i := i + 1;
    }
    return Unreadable;
  }

  /** The extracted arm: the slot says what became of the page. */
  function CachedPage(pages: seq<Page>, files: Content, n: int): Answer {
    if n < 0 || n >= |pages| then NoSuchPage
    else if pages[n].notImage then NotAnImagePage
    else if pages[n].file == None || pages[n].file.value !in files then Unreadable
    else Image(files[pages[n].file.value], Eof, pages[n].mime)
  }

  /** Either arm knows exactly the page numbers of the reading order. */
  lemma NoSuchPageWhen(es: seq<ArchiveEntry>, names: seq<string>, pages: seq<Page>, files: Content, n: int)
    ensures ZipPage(es, names, n) == NoSuchPage <==> !(0 <= n < |names|)
    ensures CachedPage(pages, files, n) == NoSuchPage <==> !(0 <= n < |pages|)
  {
  }

  /** Entries the two arms answer alike on: a ZIP streams what it can of a page
      that does not decode to its end or outgrows the page cap. */
  predicate Alike(e: ArchiveEntry) {
    (e.end == Eof && |e.data| <= ComicMaxPageBytes) || (e.end != Eof && |e.data| < 12)
  }

  /** Names the two arms answer alike on. The ZIP arm opens the first entry of
      the name and no other; an extraction takes the first one that opens. */
  predicate AlikeIn(es: seq<ArchiveEntry>, name: string) {
    var k, able := First(es, name), Openable(es);
    var m := First(able, name);
    if k == |es| then true
    else if es[k].opening == Opens then Alike(es[k])
    else m == |able| || able[m].end != Eof || |able[m].data| > ComicMaxPageBytes
  }

  lemma {:induction false} FirstOpened(es: seq<ArchiveEntry>, name: string)
    ensures First(es, name) == |es| ==> First(Openable(es), name) == |Openable(es)|
    ensures First(es, name) < |es| && es[First(es, name)].opening == Opens ==>
      First(Openable(es), name) < |Openable(es)| && Openable(es)[First(Openable(es), name)] == es[First(es, name)]
  {
    if es != [] {
      FirstOpened(es[1..], name);
      if es[0].opening == Opens {
        assert Openable(es)[0] == es[0] && Openable(es)[1..] == Openable(es[1..]);
      }
    }
  }

  /** A slot filled from entry `e` answers as the ZIP arm would on `e`, or that
      the page cannot be read. */
  lemma SlotAnswers(e: ArchiveEntry, p: Page, files: Content, i: nat)
    requires e.opening == Opens
    requires match WritePage(e.Contents(), ComicMaxPageBytes, ComicMaxPageBytes).0
      case Ok(mime) => p.file == Some(i) && p.mime == mime && !p.notImage && i in files && files[i] == e.data
      case Err(why) => p.file == None && p.notImage == (why == NotAnImage)
    ensures CachedPage([p], files, 0) == Sniffed(e) <==> Alike(e)
    ensures CachedPage([p], files, 0) == Unreadable <==> e.end != Eof || |e.data| > ComicMaxPageBytes
  {
    WindowDecides(e.data);
  }

  /** Once a comic is extracted, whichever container holds it, a page answers as
      it would from a ZIP of the entries the extraction reached: the same image
      with the same type, or the same refusal. That is so exactly when the first
      entry of its name opens and either decodes cleanly within the page cap or
      fails within its first twelve bytes, or does not open and no later one of
      that name can be read either. */
  lemma ArmsAgree(c: Comic, names: seq<string>, budget: nat, pages: seq<Page>, n: nat) returns (reached: nat)
    requires Walk(c, names, budget).1 == None && n < |names|
    requires SharesSlots(names, Walk(c, names, budget).0.pages, pages)
    requires Extracted(names, budget, pages, Walk(c, names, budget).0.total, Walk(c, names, budget).0.files)
    ensures reached <= |Listed(c)| && (!c.RarComic? ==> reached == |Listed(c)|)
    ensures var es, files := Listed(c)[..reached], Walk(c, names, budget).0.files;
      CachedPage(pages, files, n) == ZipPage(es, names, n) <==> AlikeIn(es, names[n])
  {
    hide Walk, WritePage, SniffImageMime, Sniffed, CachedPage, Alike, Extracted, Openable, Listed;
    var i := Owner(names, names[n]);
    OwnerOfOwner(names, n);
    reached := PagesAreTheArchives(c, names, budget, i);
    var es, w := Listed(c)[..reached], Walk(c, names, budget).0;
    var able := Openable(es);
    var m := First(able, names[i]);
    FirstOpened(es, names[i]);
    SlotFacts(names, budget, pages, w.total, w.files, n);
    SameAnswer(pages, w.files, n);
    if m < |able| {
      assert able[m] in able;
      SlotAnswers(able[m], pages[n], w.files, i);
    } else {
      NothingFound(names, w, pages, n);
    }
    ShutAnswers(es, names[n]);
  }

  lemma ShutAnswers(es: seq<ArchiveEntry>, name: string)
    ensures First(es, name) < |es| && es[First(es, name)].opening != Opens ==> Sniffed(es[First(es, name)]) == Unreadable
  {
  }

  lemma SlotFacts(names: seq<string>, budget: int, pages: seq<Page>, total: int, files: Content, n: nat)
    requires Extracted(names, budget, pages, total, files) && n < |names|
    ensures |pages| == |names| && Slot(names, pages, files, n)
    ensures pages[n].file.Some? ==> pages[n].file == Some(Owner(names, names[n])) && !pages[n].notImage
    ensures pages[n].file.Some? <==> Owner(names, names[n]) in files
  {
    assert Slot(names, pages, files, n);
  }

  lemma SameAnswer(pages: seq<Page>, files: Content, n: nat)
    requires n < |pages|
    ensures CachedPage(pages, files, n) == CachedPage([pages[n]], files, 0)
  {
  }

  lemma NothingFound(names: seq<string>, w: Progress, pages: seq<Page>, n: nat)
    requires n < |names| && SharesSlots(names, w.pages, pages)
    requires w.pages[Owner(names, names[n])] == Blank(names)[Owner(names, names[n])]
    ensures CachedPage(pages, w.files, n) == Unreadable
  {
  }

  // ------------------------------------------------------------------
  // Closing
  // ------------------------------------------------------------------

  /** An opened comic: it owns an open source, or a reference on an entry. */
  class ComicPageSet {
    const cache: PageCache.PageCache
    var entry: PageCache.CacheEntry?
    var source: bool

    constructor (cache: PageCache.PageCache, entry: PageCache.CacheEntry?, source: bool)
      ensures this.cache == cache && this.entry == entry && this.source == source
    {
      this.cache, this.entry, this.source := cache, entry, source;
    }

    /** Gives the reference back once: closing again changes nothing. */
    method Close()
      requires cache.Valid() && (entry != null ==> entry in cache.known)
      modifies this, if entry != null then {entry} else {}
      ensures cache.Valid() && entry == null
      ensures old(entry) != null ==> cache.View() == Release(old(cache.View()), old(entry)) && source == old(source)
      ensures old(entry) == null ==> cache.View() == old(cache.View()) && !source
    {
      if entry != null {
        cache.Release(entry);
        entry := null;
        return;
      }
      if source {
        source := false;
      }
    }
  }
}
