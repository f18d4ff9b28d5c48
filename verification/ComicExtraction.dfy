/** Extracting a comic's pages into a directory, within the cache's budget and
    without disturbing the page numbers. */
module ComicExtraction {
  import opened Common
  import opened CacheState
  import opened Occupancy
  import opened ImageSniff
  import opened ComicWalk
  import opened ComicRead

  const ComicMaxPageBytes := 32 * 0x10_0000

  datatype WriteFault = BudgetSpent | PageOverCap | PageUnreadable | NotAnImage

  /** What one page's copy comes to: its type, or why it was refused, and how
      much of the entry was read. The copy stops one byte past the tighter of
      the two bounds. */
  function WritePage(r: Reader, pageMax: nat, budgetLeft: int): (Result<string, WriteFault>, nat) {
    var max := CopyLimit(pageMax, budgetLeft);
    if |r.data| > max then (Err(if budgetLeft < pageMax then BudgetSpent else PageOverCap), max + 1)
    else if r.end != Eof then (Err(PageUnreadable), |r.data|)
    else if SniffImageMime(r.data) == "" then (Err(NotAnImage), |r.data|)
    else (Ok(SniffImageMime(r.data)), |r.data|)
  }

  function CopyLimit(pageMax: nat, budgetLeft: int): nat {
    var max := if budgetLeft < pageMax then budgetLeft else pageMax;
    if max < 0 then 0 else max
  }

  /** The directory an extraction writes into; `peak` is the most it ever held. */
  class PageDir {
    var files: Content
    ghost var peak: nat

    constructor ()
      ensures files == map[] && peak == 0
    {
      files := map[];
      peak := 0;
    }

    ghost predicate Valid()
      reads this
    {
      Occupied(files) <= peak
    }

    method Create(n: nat)
      requires Valid()
      modifies this
      ensures Valid() && files == old(files)[n := []] && peak == old(peak)
    {
      OccupiedPut(files, n, []);
      files := files[n := []];
    }

    method Append(n: nat, b: Bytes)
      requires Valid() && n in files
      modifies this
      ensures Valid() && files == old(files)[n := old(files)[n] + b]
      ensures peak == Larger(old(peak), Occupied(files))
    {
      files := files[n := files[n] + b];
      peak := Larger(peak, Occupied(files));
    }

    method Remove(n: nat)
      requires Valid()
      modifies this
      ensures Valid() && files == old(files) - {n} && peak == old(peak)
    {
      OccupiedRemove(files, n);
      files := files - {n};
    }

    /** Writes a page in two pieces, the sniffed head first. */
    method Fill(n: nat, b: Bytes, head: nat, ghost before: Content)
      requires Valid() && n !in before && files == before[n := []] && head <= |b|
      modifies this
      ensures Valid() && files == before[n := b]
      ensures peak <= Larger(old(peak), Occupied(before) + |b|)
    {
      Append(n, b[..head]);
      assert [] + b[..head] == b[..head];
      assert files == before[n := b[..head]];
      OccupiedPut(before, n, b[..head]);
      Append(n, b[head..]);
      assert b[..head] + b[head..] == b;
      assert files == before[n := b];
      OccupiedPut(before, n, b);
    }

    /** Copies one page to disk. A refused page leaves no file, and on the way
        the directory never holds more than the copy limit and one byte beyond
        what it held before. */
    method WriteCachedPage(n: nat, r: Reader, pageMax: nat, budgetLeft: int) returns (mime: Result<string, WriteFault>)
      requires Valid() && n !in files
      modifies this
      ensures Valid()
      ensures mime == WritePage(r, pageMax, budgetLeft).0
      ensures files == if mime.Ok? then old(files)[n := r.data] else old(files)
      ensures peak <= Larger(old(peak), Occupied(old(files)) + CopyLimit(pageMax, budgetLeft) + 1)
    {
      hide SniffImageMime, Occupied;
      var max, spent := pageMax, false;
      if budgetLeft < max {
        max, spent := budgetLeft, true;
      }
      max := if max < 0 then 0 else max;
      ghost var before := files;
      Create(n);
      var limit := Min(|r.data|, max + 1);
      var hn := Min(limit, 12);
      var head := r.data[..hn];
      if hn < 12 && limit <= max && r.end != Eof {
        Remove(n);
        return Err(PageUnreadable);
      }
      var sniffed := SniffImageMime(head);
      assert r.data[..limit][..hn] == head;
      Fill(n, r.data[..limit], hn, before);
      if limit > max {
        mime := Err(if spent then BudgetSpent else PageOverCap);
      } else if r.end != Eof {
        mime := Err(PageUnreadable);
      } else if sniffed == "" {
        WindowDecides(r.data);
        assert head == if |r.data| < 12 then r.data else r.data[..12];
        mime := Err(NotAnImage);
      } else {
        WindowDecides(r.data);
        assert head == if |r.data| < 12 then r.data else r.data[..12];
        assert r.data[..limit] == r.data;
        return Ok(sniffed);
      }
      Remove(n);
    }
  }

  function Larger(a: nat, b: nat): nat {
    if a < b then b else a
  }

  lemma OccupiedPut(c: Content, n: nat, b: Bytes)
    requires n !in c || b == []
    ensures Occupied(c[n := b]) <= Occupied(c) + |b|
    ensures n !in c ==> Occupied(c[n := b]) == Occupied(c) + |b|
  {
    if n in c {
      OccupiedWithout(c, n);
      OccupiedWithout(c[n := b], n);
      assert c[n := b] - {n} == c - {n};
    } else {
      OccupiedAdd(c, n, b);
    }
  }

  lemma OccupiedRemove(c: Content, n: nat)
    ensures Occupied(c - {n}) <= Occupied(c)
  {
    if n in c {
      OccupiedWithout(c, n);
    } else {
      assert c - {n} == c;
    }
  }

  // ------------------------------------------------------------------
  // The extraction
  // ------------------------------------------------------------------

  /** One slot of the reading order. `file` is the number of the slot that owns
      the bytes, absent when the page could not be extracted. */
  datatype Page = Page(name: string, file: Option<nat>, mime: string, size: nat, fail: string, notImage: bool)

  /** What the sink closes over. */
  datatype Progress = Progress(pages: seq<Page>, total: nat, files: Content)

  /** The slot that owns a name's bytes: its first. */
  function Owner(names: seq<string>, name: string): (i: nat)
    ensures i <= |names| && (i < |names| <==> name in names)
    ensures i < |names| ==> names[i] == name
    ensures forall j :: 0 <= j < i ==> names[j] != name
  {
    if names == [] || names[0] == name then 0 else 1 + Owner(names[1..], name)
  }

  function Wanted(names: seq<string>): set<string> {
    set n | n in names
  }

  function FaultText(why: WriteFault): (text: string)
    ensures text != ""
  {
    match why
    case BudgetSpent => "the comic's page cache budget is spent"
    case PageOverCap => "page expands past the cap"
    case PageUnreadable => "page would not decode"
    case NotAnImage => "page entry is not a recognized image format"
  }

  /** One entry handed to the extraction. */
  function Take(names: seq<string>, budget: int, s: Progress, name: string, r: Reader): SinkOut<Progress> {
    var i := Owner(names, name);
    if i >= |names| || i >= |s.pages| then GoOn(s, 0)
    else
      var (mime, used) := WritePage(r, ComicMaxPageBytes, budget - s.total);
      match mime
      case Ok(m) =>
        GoOn(Progress(s.pages[i := Page(s.pages[i].name, Some(i), m, |r.data|, "", s.pages[i].notImage)],
                      s.total + |r.data|, s.files[i := r.data]), used)
      case Err(BudgetSpent) => Stop(s, SinkFailed("the comic expands past the page cache budget"))
      case Err(why) =>
        GoOn(s.(pages := s.pages[i := s.pages[i].(fail := FaultText(why), notImage := why == NotAnImage)]), used)
  }

  function PageSink(names: seq<string>, budget: int): Sink<Progress> {
    (s: Progress, name: string, r: Reader) => Take(names, budget, s, name, r)
  }

  function Blank(names: seq<string>): (pages: seq<Page>)
    ensures |pages| == |names|
    ensures forall i :: 0 <= i < |names| ==>
      pages[i] == Page(names[i], None, "", 0, "the archive did not yield this entry", false)
  {
    seq(|names|, i requires 0 <= i < |names| =>
      Page(names[i], None, "", 0, "the archive did not yield this entry", false))
  }

  function Sizes(pages: seq<Page>): nat {
    if pages == [] then 0 else pages[0].size + Sizes(pages[1..])
  }

  // ------------------------------------------------------------------
  // What every sink call keeps
  // ------------------------------------------------------------------

  /** A slot with its own file: on disk, sized and typed by its own bytes. */
  ghost predicate Filled(p: Page, i: nat, files: Content) {
    && p.file == Some(i) && i in files && p.size == |files[i]|
    && p.mime == SniffImageMime(files[i]) && p.mime != "" && p.fail == "" && !p.notImage
  }

  /** A slot without a file, and why. */
  ghost predicate Refused(p: Page) {
    p.file == None && p.size == 0 && p.mime == "" && p.fail != ""
  }

  ghost predicate SlotSound(names: seq<string>, done: set<string>, s: Progress, i: nat)
    requires i < |names| == |s.pages|
  {
    && s.pages[i].name == names[i]
    && (i in s.files ==> Owner(names, names[i]) == i && names[i] in done)
    && if i in s.files then Filled(s.pages[i], i, s.files)
       else Refused(s.pages[i]) && (names[i] in done || !s.pages[i].notImage)
  }

  ghost predicate Sound(names: seq<string>, budget: int, done: set<string>, s: Progress) {
    && |s.pages| == |names|
    && (forall i :: 0 <= i < |names| ==> SlotSound(names, done, s, i))
    && (forall i :: i in s.files ==> i < |names|)
    && Occupied(s.files) == s.total == Sizes(s.pages)
    && s.total <= budget
  }

  lemma {:induction false} SizesPut(pages: seq<Page>, i: nat, p: Page)
    requires i < |pages|
    ensures Sizes(pages[i := p]) == Sizes(pages) - pages[i].size + p.size
  {
    if i == 0 {
      assert pages[i := p][1..] == pages[1..];
    } else {
      SizesPut(pages[1..], i - 1, p);
      assert pages[i := p][1..] == pages[1..][i - 1 := p];
    }
  }

  lemma {:induction false} BlankSizes(pages: seq<Page>)
    requires forall i :: 0 <= i < |pages| ==> pages[i].size == 0
    ensures Sizes(pages) == 0
  {
    if pages != [] {
      BlankSizes(pages[1..]);
    }
  }

  lemma BlankSound(names: seq<string>, budget: nat)
    ensures Sound(names, budget, {}, Progress(Blank(names), 0, map[]))
  {
    BlankSizes(Blank(names));
    assert Occupied(map[]) == 0;
  }

  lemma AcceptSound(names: seq<string>, budget: int, done: set<string>, s: Progress, name: string, r: Reader)
    requires Sound(names, budget, done, s) && name in names && name !in done
    requires WritePage(r, ComicMaxPageBytes, budget - s.total).0.Ok?
    ensures Sound(names, budget, done + {name}, PageSink(names, budget)(s, name, r).s)
  {
    var i := Owner(names, name);
    var s' := PageSink(names, budget)(s, name, r).s;
    assert SlotSound(names, done, s, i) && i !in s.files;
    OccupiedAdd(s.files, i, r.data);
    SizesPut(s.pages, i, s'.pages[i]);
    forall j | 0 <= j < |names| ensures SlotSound(names, done + {name}, s', j) {
      assert SlotSound(names, done, s, j);
    }
  }

  lemma RefuseSound(names: seq<string>, budget: int, done: set<string>, s: Progress, name: string, r: Reader)
    requires Sound(names, budget, done, s) && name in names && name !in done
    requires WritePage(r, ComicMaxPageBytes, budget - s.total).0.Err?
    ensures var out := PageSink(names, budget)(s, name, r);
      Sound(names, budget, if out.GoOn? then done + {name} else done, out.s)
  {
    var i := Owner(names, name);
    var out := PageSink(names, budget)(s, name, r);
    assert SlotSound(names, done, s, i) && i !in s.files;
    if out.GoOn? {
      SizesPut(s.pages, i, out.s.pages[i]);
      forall j | 0 <= j < |names| ensures SlotSound(names, done + {name}, out.s, j) {
        assert SlotSound(names, done, s, j);
      }
    }
  }

  lemma SinkKeepsSound(names: seq<string>, budget: int)
    ensures Kept(Wanted(names), PageSink(names, budget), (done, s) => Sound(names, budget, done, s))
  {
    var want, sink := Wanted(names), PageSink(names, budget);
    forall done, s, name, r | Sound(names, budget, done, s) && name in want && name !in done
      ensures Sound(names, budget, if sink(s, name, r).GoOn? then done + {name} else done, sink(s, name, r).s)
    {
      if WritePage(r, ComicMaxPageBytes, budget - s.total).0.Ok? {
        AcceptSound(names, budget, done, s, name, r);
      } else {
        RefuseSound(names, budget, done, s, name, r);
      }
    }
  }

  // ------------------------------------------------------------------
  // The whole extraction
  // ------------------------------------------------------------------

  ghost function Walk(c: Comic, names: seq<string>, budget: int): (Progress, Option<WalkError>) {
    var start := Progress(Blank(names), 0, map[]);
    match c
    case Zip(es) => WalkZip(es, Wanted(names), {}, PageSink(names, budget), start)
    case SevenZip(es) => Walk7z(es, Wanted(names), {}, PageSink(names, budget), start)
    case RarComic(rar) =>
      var end := WalkRar(rar, 0, true, 0, Wanted(names), {}, PageSink(names, budget), start);
      (end.s, end.err)
  }

  lemma WalkSound(c: Comic, names: seq<string>, budget: nat) returns (done: set<string>)
    ensures Sound(names, budget, done, Walk(c, names, budget).0)
  {
    var start := Progress(Blank(names), 0, map[]);
    var inv := (d: set<string>, s: Progress) => Sound(names, budget, d, s);
    BlankSound(names, budget);
    SinkKeepsSound(names, budget);
    match c
    case Zip(es) => done := ZipKeeps(es, Wanted(names), {}, PageSink(names, budget), start, inv);
    case SevenZip(es) => done := SevenzipKeeps(es, Wanted(names), {}, PageSink(names, budget), start, inv);
    case RarComic(rar) => done := RarKeeps(rar, 0, true, 0, Wanted(names), {}, PageSink(names, budget), start, inv);
  }

  /** A later slot of a repeated name shows the first one's outcome. */
  function Shared(page: Page, owner: Page): Page {
    page.(file := owner.file, mime := owner.mime, fail := owner.fail, notImage := owner.notImage)
  }

  lemma SharedWithItself(page: Page)
    ensures Shared(page, page) == page
  {
  }

  ghost predicate SharesSlots(names: seq<string>, slots: seq<Page>, pages: seq<Page>) {
    && |slots| == |names| == |pages|
    && forall j :: 0 <= j < |names| ==> pages[j] == Shared(slots[j], slots[Owner(names, names[j])])
  }

  ghost predicate Extracted(names: seq<string>, budget: int, pages: seq<Page>, total: int, files: Content) {
    && |pages| == |names|
    && (forall i :: 0 <= i < |names| ==> Slot(names, pages, files, i))
    && (forall k :: k in files ==> k < |names| && pages[k].file == Some(k))
    && Occupied(files) == total == Sizes(pages) && total <= budget
  }

  /** One slot of the result: it keeps its name, agrees with the first slot of
      that name, and has either a file typed by its own bytes or a reason. */
  ghost predicate Slot(names: seq<string>, pages: seq<Page>, files: Content, i: nat)
    requires i < |names| == |pages|
  {
    var p, first := pages[i], Owner(names, names[i]);
    && p.name == names[i]
    && p.file == pages[first].file && p.mime == pages[first].mime
    && p.fail == pages[first].fail && p.notImage == pages[first].notImage
    && match p.file
       case Some(k) =>
         && k == first && k in files && p.fail == "" && !p.notImage
         && p.mime == SniffImageMime(files[k]) && p.mime != ""
         && p.size == if i == k then |files[k]| else 0
       case None => p.fail != "" && p.mime == "" && p.size == 0 && first !in files
  }

  /** The slots after the first of a repeated name point at the same bytes. */
  method ShareSlots(names: seq<string>, slots: seq<Page>) returns (pages: seq<Page>)
    requires |slots| == |names|
    ensures SharesSlots(names, slots, pages)
  {
    hide Shared;
    pages := slots;
    var i := 0;
    while i < |names|
      invariant 0 <= i <= |names| == |pages|
      invariant forall j :: 0 <= j < i ==> pages[j] == Shared(slots[j], slots[Owner(names, names[j])])
      invariant forall j :: i <= j < |names| ==> pages[j] == slots[j]
      invariant forall j :: 0 <= j < |names| && Owner(names, names[j]) == j ==> pages[j] == slots[j]
    {
      var owner := Owner(names, names[i]);
      OwnerOfOwner(names, i);
      SharedWithItself(slots[i]);
      if owner != i {
        pages := pages[i := Shared(pages[i], pages[owner])];
      }
      i := i + 1;
    }
  }

  // ------------------------------------------------------------------
  // When an extraction fails
  // ------------------------------------------------------------------

  /** A page that is kept. */
  predicate Clean(e: ArchiveEntry) {
    e.end == Eof && |e.data| <= ComicMaxPageBytes && SniffImageMime(e.data) != ""
  }

  /** Entry `k` is the first of its name that opens, and a page of that name is
      listed. */
  ghost predicate FirstOpening(es: seq<ArchiveEntry>, names: seq<string>, k: nat)
    requires k < |es|
  {
    && es[k].opening == Opens && es[k].name in names
    && forall j :: 0 <= j < k && es[j].opening == Opens ==> es[j].name != es[k].name
  }

  /** The bytes of the pages kept before entry `k`. */
  ghost function Spent(es: seq<ArchiveEntry>, names: seq<string>, k: nat): nat
    requires k <= |es|
  {
    if k == 0 then 0
    else Spent(es, names, k - 1) + if FirstOpening(es, names, k - 1) && Clean(es[k - 1]) then |es[k - 1].data| else 0
  }

  /** Page `k` is longer than what is left of the budget, and that is less than
      any page may have. */
  ghost predicate OverrunsAt(es: seq<ArchiveEntry>, names: seq<string>, budget: int, k: nat)
    requires k < |es|
  {
    var left := budget - Spent(es, names, k);
    FirstOpening(es, names, k) && |es[k].data| > left && left < ComicMaxPageBytes
  }

  ghost predicate Overruns(es: seq<ArchiveEntry>, names: seq<string>, budget: int) {
    exists k: nat :: k < |es| && OverrunsAt(es, names, budget, k)
  }

  /** An entry asks for a password when it is opened, and none of its name opened
      before it. */
  ghost predicate AsksPasswordAt(es: seq<ArchiveEntry>, names: seq<string>, k: nat)
    requires k < |es|
  {
    && es[k].opening == NeedsPassword && es[k].name in names
    && forall j :: 0 <= j < k && es[j].opening == Opens ==> es[j].name != es[k].name
  }

  ghost predicate AsksPassword(es: seq<ArchiveEntry>, names: seq<string>) {
    exists k: nat :: k < |es| && AsksPasswordAt(es, names, k)
  }

  ghost function RarWalk(rar: Rar, names: seq<string>, budget: int): RarEnd<Progress> {
    WalkRar(rar, 0, true, 0, Wanted(names), {}, PageSink(names, budget), Progress(Blank(names), 0, map[]))
  }

  /** Why an extraction may fail: the pages do not fit, or the archive is
      refused. A page that is broken, too big or no image is no reason. */
  ghost predicate Fails(c: Comic, names: seq<string>, budget: int) {
    match c
    case Zip(es) => Overruns(es, names, budget)
    case SevenZip(es) => Overruns(Slashed(es), names, budget) || AsksPassword(Slashed(es), names)
    case RarComic(rar) =>
      var end := RarWalk(rar, names, budget);
      || Overruns(AsOpened(rar.entries)[..Min(end.reached, |rar.entries|)], names, budget)
      || (end.reached == |rar.entries| && !CutShort(rar, end) && EndsBadly(rar, names))
  }

  /** Something wanted is not in the archive, whose end is not clean. */
  ghost predicate EndsBadly(rar: Rar, names: seq<string>) {
    !(Wanted(names) <= Names(rar.entries)) && rar.tail != Eof
  }

  /** The same, entry by entry, with what is left of the budget. */
  ghost predicate RunsOver(es: seq<ArchiveEntry>, want: set<string>, done: set<string>, left: int) {
    es != [] &&
    if es[0].name !in want || es[0].name in done || es[0].opening != Opens then RunsOver(es[1..], want, done, left)
    else
      || (|es[0].data| > left && left < ComicMaxPageBytes)
      || RunsOver(es[1..], want, done + {es[0].name}, left - if Clean(es[0]) then |es[0].data| else 0)
  }

  ghost function OpenedBefore(es: seq<ArchiveEntry>, names: seq<string>, i: nat): set<string>
    requires i <= |es|
  {
    set j | 0 <= j < i && es[j].opening == Opens && es[j].name in names :: es[j].name
  }

  lemma OpenedStep(es: seq<ArchiveEntry>, names: seq<string>, i: nat)
    requires i < |es|
    ensures OpenedBefore(es, names, i + 1) == OpenedBefore(es, names, i)
      + if es[i].opening == Opens && es[i].name in names then {es[i].name} else {}
    ensures FirstOpening(es, names, i) <==>
      es[i].opening == Opens && es[i].name in Wanted(names) && es[i].name !in OpenedBefore(es, names, i)
  {
  }

  lemma {:induction false} RunsOverFrom(es: seq<ArchiveEntry>, names: seq<string>, budget: int, i: nat)
    requires i <= |es|
    ensures RunsOver(es[i..], Wanted(names), OpenedBefore(es, names, i), budget - Spent(es, names, i)) <==>
      OverrunsFrom(es, names, budget, i)
    decreases |es| - i
  {
    hide Clean, FirstOpening, OpenedBefore, OverrunsFrom;
    OverrunsStep(es, names, budget, i);
    if i < |es| {
      assert es[i..][0] == es[i] && es[i..][1..] == es[i + 1..];
      OpenedStep(es, names, i);
      RunsOverFrom(es, names, budget, i + 1);
      assert OpenedBefore(es, names, i) + {} == OpenedBefore(es, names, i);
      assert es[i].name in OpenedBefore(es, names, i) ==>
        OpenedBefore(es, names, i) + {es[i].name} == OpenedBefore(es, names, i);
    }
  }

  ghost predicate OverrunsFrom(es: seq<ArchiveEntry>, names: seq<string>, budget: int, i: nat) {
    exists k: nat :: i <= k < |es| && OverrunsAt(es, names, budget, k)
  }

  lemma OverrunsStep(es: seq<ArchiveEntry>, names: seq<string>, budget: int, i: nat)
    requires i <= |es|
    ensures OverrunsFrom(es, names, budget, i) <==>
      i < |es| && (OverrunsAt(es, names, budget, i) || OverrunsFrom(es, names, budget, i + 1))
  {
    hide OverrunsAt;
  }

  lemma RunsOverWhen(es: seq<ArchiveEntry>, names: seq<string>, budget: int)
    ensures RunsOver(es, Wanted(names), {}, budget) <==> Overruns(es, names, budget)
  {
    RunsOverFrom(es, names, budget, 0);
    assert es[0..] == es && OpenedBefore(es, names, 0) == {};
  }

  /** What the sink does with one page, by the budget that is left. */
  lemma SinkAnswers(names: seq<string>, budget: int, s: Progress, e: ArchiveEntry)
    requires |s.pages| == |names| && e.name in names && s.total <= budget
    ensures var out, left := PageSink(names, budget)(s, e.name, e.Contents()), budget - s.total;
      && (out.Stop? <==> |e.data| > left && left < ComicMaxPageBytes)
      && (out.GoOn? ==> |out.s.pages| == |names|
                        && out.s.total == s.total + (if Clean(e) then |e.data| else 0) <= budget)
  {
    hide SniffImageMime;
    assert PageSink(names, budget)(s, e.name, e.Contents()) == Take(names, budget, s, e.name, e.Contents());
  }

  lemma {:induction false} ZipStopsWhen(es: seq<ArchiveEntry>, names: seq<string>, budget: int, done: set<string>, s: Progress)
    requires |s.pages| == |names| && s.total <= budget
    ensures WalkZip(es, Wanted(names), done, PageSink(names, budget), s).1.Some? <==>
      RunsOver(es, Wanted(names), done, budget - s.total)
    decreases |es|
  {
    hide PageSink, Clean;
    if es != [] {
      var e, rest := es[0], es[1..];
      if e.name !in Wanted(names) || e.name in done || e.opening != Opens {
        ZipStopsWhen(rest, names, budget, done, s);
      } else {
        SinkAnswers(names, budget, s, e);
        var out := PageSink(names, budget)(s, e.name, e.Contents());
        if out.GoOn? {
          ZipStopsWhen(rest, names, budget, done + {e.name}, out.s);
        }
      }
    }
  }

  lemma ZipFailsWhen(es: seq<ArchiveEntry>, names: seq<string>, budget: nat)
    ensures WalkZip(es, Wanted(names), {}, PageSink(names, budget), Progress(Blank(names), 0, map[])).1.Some? <==>
      Overruns(es, names, budget)
  {
    ZipStopsWhen(es, names, budget, {}, Progress(Blank(names), 0, map[]));
    RunsOverWhen(es, names, budget);
  }

  /** What a prefix decides, the whole does. */
  lemma {:induction false} SpentInPrefix(es: seq<ArchiveEntry>, n: nat, names: seq<string>, k: nat)
    requires k <= n <= |es|
    ensures Spent(es[..n], names, k) == Spent(es, names, k)
  {
    hide Clean;
    if k > 0 {
      SpentInPrefix(es, n, names, k - 1);
      FirstInFront(es, n, names, k - 1);
    }
  }

  lemma FirstInFront(es: seq<ArchiveEntry>, n: nat, names: seq<string>, k: nat)
    requires k < n <= |es|
    ensures FirstOpening(es[..n], names, k) <==> FirstOpening(es, names, k)
  {
    assert forall j :: 0 <= j < n ==> es[..n][j] == es[j];
  }

  lemma OverrunsInPrefix(es: seq<ArchiveEntry>, n: nat, names: seq<string>, budget: int)
    requires n <= |es|
    ensures Overruns(es[..n], names, budget) <==> exists k: nat :: k < n && OverrunsAt(es, names, budget, k)
  {
    hide FirstOpening, Spent;
    forall k: nat | k < n ensures OverrunsAt(es[..n], names, budget, k) <==> OverrunsAt(es, names, budget, k) {
      SpentInPrefix(es, n, names, k);
      FirstInFront(es, n, names, k);
    }
  }

  /** A 7z walk meets its password where the entries say. */
  lemma {:induction false} LockFrom(es: seq<ArchiveEntry>, names: seq<string>, i: nat)
    requires i <= |es|
    ensures LockAt(es[i..], Wanted(names), OpenedBefore(es, names, i)) < |es| - i <==>
      exists k: nat :: i <= k < |es| && AsksPasswordAt(es, names, k)
    decreases |es| - i
  {
    if i < |es| {
      assert es[i..][0] == es[i] && es[i..][1..] == es[i + 1..];
      OpenedStep(es, names, i);
      LockFrom(es, names, i + 1);
      assert OpenedBefore(es, names, i) + {} == OpenedBefore(es, names, i);
      assert es[i].name in OpenedBefore(es, names, i) ==>
        OpenedBefore(es, names, i) + {es[i].name} == OpenedBefore(es, names, i);
      AsksNow(es, names, i);
    }
  }

  lemma AsksNow(es: seq<ArchiveEntry>, names: seq<string>, i: nat)
    requires i < |es|
    ensures AsksPasswordAt(es, names, i) <==>
      es[i].opening == NeedsPassword && es[i].name in Wanted(names) && es[i].name !in OpenedBefore(es, names, i)
  {
  }

  lemma LockWhen(es: seq<ArchiveEntry>, names: seq<string>)
    ensures LockAt(es, Wanted(names), {}) < |es| <==> AsksPassword(es, names)
  {
    LockFrom(es, names, 0);
    assert es[0..] == es && OpenedBefore(es, names, 0) == {};
  }

  lemma SevenzipFailsWhen(es: seq<ArchiveEntry>, names: seq<string>, budget: nat)
    ensures Walk7z(es, Wanted(names), {}, PageSink(names, budget), Progress(Blank(names), 0, map[])).1.Some? <==>
      Overruns(Slashed(es), names, budget) || AsksPassword(Slashed(es), names)
  {
    hide WalkZip, Walk7z, Overruns, AsksPassword, PageSink, LockAt;
    var all, start := Slashed(es), Progress(Blank(names), 0, map[]);
    var k := LockAt(all, Wanted(names), {});
    SevenzipWalksLikeZip(es, Wanted(names), {}, PageSink(names, budget), start);
    LockWhen(all, names);
    ZipFailsWhen(all[..k], names, budget);
    assert k == |es| ==> all[..k] == all;
  }

  lemma RarFails(rar: Rar, names: seq<string>, budget: nat)
    ensures var end := RarWalk(rar, names, budget);
      && end.reached <= |rar.entries|
      && (end.err.Some? <==>
            || Overruns(AsOpened(rar.entries)[..end.reached], names, budget)
            || (end.reached == |rar.entries| && !CutShort(rar, end) && EndsBadly(rar, names)))
      && (end.err.Some? || end.reached == |rar.entries| || CutShort(rar, end)
          || Wanted(names) <= Names(AsOpened(rar.entries)[..end.reached]))
  {
    hide WalkZip, WalkRar, Overruns, PageSink, CutShort;
    var all, start, end := AsOpened(rar.entries), Progress(Blank(names), 0, map[]), RarWalk(rar, names, budget);
    var rar' := rar.(entries := all);
    RarIgnoresOpening(rar, 0, true, 0, Wanted(names), {}, PageSink(names, budget), start);
    RarWalksLikeZip(rar', 0, true, 0, Wanted(names), {}, PageSink(names, budget), start);
    assert all[0..end.reached] == all[..end.reached];
    assert end.reached == |all| ==> all[..end.reached] == all;
    ZipFailsWhen(all[..end.reached], names, budget);
    CutAlike(rar, end);
    NamesAlike(rar.entries);
    assert {} + Names(all[..end.reached]) == Names(all[..end.reached]);
  }

  lemma NamesAlike(es: seq<ArchiveEntry>)
    ensures Names(AsOpened(es)) == Names(es)
  {
    forall e | e in es ensures e.name in Names(AsOpened(es)) {
      var i :| 0 <= i < |es| && es[i] == e;
      assert AsOpened(es)[i] in AsOpened(es);
    }
  }

  /** An extraction fails exactly when its pages overrun the budget or the
      archive is refused, whatever pages are broken, too big or no image. */
  lemma FailsWhen(c: Comic, names: seq<string>, budget: nat)
    ensures Walk(c, names, budget).1.Some? <==> Fails(c, names, budget)
  {
    hide WalkZip, Walk7z, WalkRar, Overruns, PageSink, CutShort, AsksPassword;
    match c
    case Zip(es) => ZipFailsWhen(es, names, budget);
    case SevenZip(es) => SevenzipFailsWhen(es, names, budget);
    case RarComic(rar) => RarFails(rar, names, budget);
  }

  /** A RAR that is not solid, or was not cut short, fails by its entries and its
      tail alone: when its pages overrun the budget, or something wanted is not
      there and the archive does not end well. */
  lemma RarFailsWhen(rar: Rar, names: seq<string>, budget: nat)
    requires !CutShort(rar, RarWalk(rar, names, budget))
    ensures Fails(RarComic(rar), names, budget) <==>
      Overruns(AsOpened(rar.entries), names, budget) || EndsBadly(rar, names)
  {
    hide WalkRar, PageSink, CutShort, OverrunsAt;
    var all, end := AsOpened(rar.entries), RarWalk(rar, names, budget);
    var n := end.reached;
    RarFails(rar, names, budget);
    OverrunsInPrefix(all, n, names, budget);
    NamesAlike(rar.entries);
    NamesInFront(all, n);
    assert n == |all| ==> all[..n] == all;
    if n < |all| && Wanted(names) <= Names(all[..n]) {
      forall k: nat | n <= k < |all| ensures !OverrunsAt(all, names, budget, k) {
        LaterIsNotFirst(all, n, names, budget, k);
      }
    }
  }

  lemma NamesInFront(es: seq<ArchiveEntry>, n: nat)
    requires n <= |es|
    ensures Names(es[..n]) <= Names(es)
  {
  }

  lemma LaterIsNotFirst(es: seq<ArchiveEntry>, n: nat, names: seq<string>, budget: int, k: nat)
    requires AllOpen(es) && n <= k < |es| && Wanted(names) <= Names(es[..n])
    ensures !OverrunsAt(es, names, budget, k)
  {
    if es[k].name in names {
      assert es[k].name in Wanted(names) && es[k].name in Names(es[..n]);
      var e :| e in es[..n] && e.name == es[k].name;
      var j :| 0 <= j < n && es[..n][j] == e;
      assert es[j] in es && es[j].name == es[k].name;
    }
  }

  lemma NotSolidIsNotCut(rar: Rar, names: seq<string>, budget: nat)
    requires !rar.solid
    ensures !CutShort(rar, RarWalk(rar, names, budget))
  {
    hide WalkRar;
  }

  /** Writes every page of a comic into `dir` and returns the reading order and
      the bytes written. An error means the directory is to be thrown away. */
  method ExtractComicPages(c: Comic, names: seq<string>, budget: nat)
    returns (r: Result<(seq<Page>, nat), WalkError>, files: Content)
    ensures r.Err? <==> names == [] || Walk(c, names, budget).1.Some?
    ensures r.Err? <==> names == [] || Fails(c, names, budget)
    ensures r.Ok? ==> Extracted(names, budget, r.value.0, r.value.1, files)
    ensures r.Ok? ==> files == Walk(c, names, budget).0.files
    ensures r.Ok? ==> SharesSlots(names, Walk(c, names, budget).0.pages, r.value.0)
  {
    hide WalkZip, Walk7z, WalkRar, Extracted, Sound, Fails;
    files := map[];
    FailsWhen(c, names, budget);
    if names == [] {
      return Err(SinkFailed("the archive contains no images")), files;
    }
    var want := Wanted(names);
    var s := Progress(Blank(names), 0, map[]);
    var err: Option<WalkError>;
    match c {
      case Zip(es) => s, err := StreamZip(es, want, PageSink(names, budget), s);
      case SevenZip(es) => s, err := Stream7z(es, want, PageSink(names, budget), s);
      case RarComic(rar) =>
        ghost var end;
        s, err, end := StreamRar(rar, want, PageSink(names, budget), s);
    }
    files := s.files;
    ghost var done := WalkSound(c, names, budget);
    if err.Some? {
      return Err(err.value), files;
    }
    SoundLength(names, budget, done, s);
    var pages := ShareSlots(names, s.pages);
    SharedSound(names, budget, done, s, pages);
    r := Ok((pages, s.total));
  }

  lemma SoundLength(names: seq<string>, budget: int, done: set<string>, s: Progress)
    requires Sound(names, budget, done, s)
    ensures |s.pages| == |names|
  {
  }

  lemma {:induction false} SharedSizes(a: seq<Page>, b: seq<Page>)
    requires |a| == |b| && forall i :: 0 <= i < |a| ==> a[i].size == b[i].size
    ensures Sizes(a) == Sizes(b)
  {
    if a != [] {
      SharedSizes(a[1..], b[1..]);
    }
  }

  lemma OwnerOfOwner(names: seq<string>, i: nat)
    requires i < |names|
    ensures Owner(names, names[i]) <= i && names[Owner(names, names[i])] == names[i]
    ensures Owner(names, names[Owner(names, names[i])]) == Owner(names, names[i])
  {
  }

  lemma SharedSound(names: seq<string>, budget: int, done: set<string>, s: Progress, pages: seq<Page>)
    requires Sound(names, budget, done, s) && SharesSlots(names, s.pages, pages)
    ensures Extracted(names, budget, pages, s.total, s.files)
  {
    forall i | 0 <= i < |names| ensures Slot(names, pages, s.files, i) && (i in s.files ==> pages[i].file == Some(i)) {
      var first := Owner(names, names[i]);
      OwnerOfOwner(names, i);
      assert SlotSound(names, done, s, i) && SlotSound(names, done, s, first);
      assert pages[first] == Shared(s.pages[first], s.pages[first]);
    }
    SharedSizes(pages, s.pages);
  }

  // ------------------------------------------------------------------
  // The pages are the archive's
  // ------------------------------------------------------------------

  /** What slot `i` is after a walk over `es` that started from `was`: its
      name's first entry decides, and without one nothing changes. */
  ghost predicate SlotFrom(es: seq<ArchiveEntry>, names: seq<string>, was: Progress, now: Progress, i: nat)
    requires i < |names| == |was.pages| == |now.pages|
  {
    var k := First(es, names[i]);
    if k == |es| then now.pages[i] == was.pages[i] && SameFile(was.files, now.files, i)
    else
      match WritePage(es[k].Contents(), ComicMaxPageBytes, ComicMaxPageBytes).0
      case Ok(mime) =>
        i in now.files && now.files[i] == es[k].data && now.pages[i].file == Some(i) && now.pages[i].mime == mime
      case Err(why) =>
        && SameFile(was.files, now.files, i)
        && now.pages[i].fail == FaultText(why) && now.pages[i].notImage == (why == NotAnImage)
  }

  ghost predicate SameFile(a: Content, b: Content, i: nat) {
    (i in a <==> i in b) && (i in a ==> a[i] == b[i])
  }

  /** Slot `i` after a walk that had already settled `done`. */
  ghost predicate SlotAfter(es: seq<ArchiveEntry>, names: seq<string>, done: set<string>, was: Progress, now: Progress, i: nat)
    requires i < |names| == |was.pages| == |now.pages|
  {
    if names[i] in done then now.pages[i] == was.pages[i] && SameFile(was.files, now.files, i)
    else SlotFrom(es, names, was, now, i)
  }

  /** One entry handed to the sink settles its own slot only. */
  lemma SinkSlot(names: seq<string>, budget: int, s: Progress, e: ArchiveEntry, i: nat)
    requires |s.pages| == |names| && i < |names| && Owner(names, names[i]) == i && e.name in names
    requires PageSink(names, budget)(s, e.name, e.Contents()).GoOn?
    ensures var s' := PageSink(names, budget)(s, e.name, e.Contents()).s;
      && |s'.pages| == |names|
      && if names[i] == e.name then SlotFrom([e], names, s, s', i)
         else s'.pages[i] == s.pages[i] && SameFile(s.files, s'.files, i)
  {
    assert First([e], e.name) == 0;
    var owner := Owner(names, e.name);
    assert names[owner] == e.name;
    assert PageSink(names, budget)(s, e.name, e.Contents()) == Take(names, budget, s, e.name, e.Contents());
  }

  lemma {:induction false} ZipFills(es: seq<ArchiveEntry>, names: seq<string>, budget: int, done: set<string>, s: Progress, i: nat)
    requires AllOpen(es) && |s.pages| == |names| && i < |names| && Owner(names, names[i]) == i
    requires WalkZip(es, Wanted(names), done, PageSink(names, budget), s).1 == None
    ensures var now := WalkZip(es, Wanted(names), done, PageSink(names, budget), s).0;
      |now.pages| == |names| && SlotAfter(es, names, done, s, now, i)
    decreases |es|
  {
    if es != [] {
      assert es[0] in es;
      var e, rest, sink := es[0], es[1..], PageSink(names, budget);
      assert First(es, names[i]) == if e.name == names[i] then 0 else 1 + First(rest, names[i]);
      if e.name !in Wanted(names) || e.name in done {
        ZipFills(rest, names, budget, done, s, i);
      } else {
        var s' := sink(s, e.name, e.Contents()).s;
        SinkSlot(names, budget, s, e, i);
        ZipFills(rest, names, budget, done + {e.name}, s', i);
        assert First([e], e.name) == 0;
      }
    }
  }

  /** Whatever the container, the file of a slot is the first entry of its name
      that opens, among those the walk reached, and a slot without one says what
      was wrong with that entry. ZIP and 7z walks that end well reach them all. */
  lemma PagesAreTheArchives(c: Comic, names: seq<string>, budget: nat, i: nat) returns (reached: nat)
    requires Walk(c, names, budget).1 == None && i < |names| && Owner(names, names[i]) == i
    ensures reached <= |Listed(c)| && (!c.RarComic? ==> reached == |Listed(c)|)
    ensures |Walk(c, names, budget).0.pages| == |names|
    ensures SlotFrom(Openable(Listed(c)[..reached]), names, Progress(Blank(names), 0, map[]), Walk(c, names, budget).0, i)
  {
    hide WalkZip, Walk7z, WalkRar, SlotFrom, SlashName, Take;
    var start, sink, want := Progress(Blank(names), 0, map[]), PageSink(names, budget), Wanted(names);
    var all := Listed(c);
    reached := |all|;
    assert all[..|all|] == all;
    match c
    case Zip(es) =>
      ZipWalksOpenable(es, want, {}, sink, start);
      ZipFills(Openable(es), names, budget, {}, start, i);
    case SevenZip(es) =>
      SevenzipWalksLikeZip(es, want, {}, sink, start);
      ZipWalksOpenable(all, want, {}, sink, start);
      ZipFills(Openable(all), names, budget, {}, start, i);
    case RarComic(rar) =>
      var rar' := rar.(entries := all);
      RarIgnoresOpening(rar, 0, true, 0, want, {}, sink, start);
      RarWalksLikeZip(rar', 0, true, 0, want, {}, sink, start);
      reached := WalkRar(rar, 0, true, 0, want, {}, sink, start).reached;
      assert all[0..reached] == all[..reached];
      ZipWalksOpenable(all[..reached], want, {}, sink, start);
      ZipFills(Openable(all[..reached]), names, budget, {}, start, i);
  }
}
