/** The buffered read every container shares, and why it does not matter which
    archiver packed the comic. */
module ComicRead {
  import opened Common
  import opened ComicWalk

  // ------------------------------------------------------------------
  // Any sink
  // ------------------------------------------------------------------

  ghost predicate AllOpen(es: seq<ArchiveEntry>) {
    forall e :: e in es ==> e.opening == Opens
  }

  /** The entries that open, in order. */
  function Openable(es: seq<ArchiveEntry>): (r: seq<ArchiveEntry>)
    ensures AllOpen(r)
  {
    if es == [] then [] else if es[0].opening == Opens then [es[0]] + Openable(es[1..]) else Openable(es[1..])
  }

  /** The entries under the names a 7z walk gives them. */
  function Slashed(es: seq<ArchiveEntry>): (r: seq<ArchiveEntry>)
    ensures |r| == |es|
    ensures forall i :: 0 <= i < |es| ==> r[i] == es[i].(name := SlashName(es[i].name))
  {
    seq(|es|, i requires 0 <= i < |es| => es[i].(name := SlashName(es[i].name)))
  }

  lemma SlashedStep(es: seq<ArchiveEntry>)
    requires es != []
    ensures Slashed(es)[0] == es[0].(name := SlashName(es[0].name)) && Slashed(es)[1..] == Slashed(es[1..])
  {
  }

  /** Entries that will not open are as good as absent. */
  lemma {:induction false} ZipWalksOpenable<S>(es: seq<ArchiveEntry>, want: set<string>, done: set<string>, sink: Sink<S>, s: S)
    ensures WalkZip(es, want, done, sink, s) == WalkZip(Openable(es), want, done, sink, s)
    decreases |es|
  {
    if es != [] {
      var e, rest := es[0], es[1..];
      if e.opening == Opens {
        assert Openable(es)[0] == e && Openable(es)[1..] == Openable(rest);
      }
      if e.name !in want || e.name in done || e.opening != Opens {
        ZipWalksOpenable(rest, want, done, sink, s);
      } else {
        match sink(s, e.name, e.Contents())
        case Stop(_, _) =>
        case GoOn(s', _) => ZipWalksOpenable(rest, want, done + {e.name}, sink, s');
      }
    }
  }

  /** The first entry that asks for a password when a 7z walk opens it, or the
      length: it is wanted, and no entry of its name opened before it. */
  function LockAt(es: seq<ArchiveEntry>, want: set<string>, done: set<string>): (k: nat)
    ensures k <= |es|
    ensures k < |es| ==> es[k].name in want && es[k].name !in done && es[k].opening == NeedsPassword
    ensures k < |es| ==> forall j :: 0 <= j < k ==> es[j].name == es[k].name ==> es[j].opening == WontOpen
  {
    if es == [] then 0
    else if es[0].name !in want || es[0].name in done || es[0].opening == WontOpen then
      1 + LockAt(es[1..], want, done)
    else if es[0].opening == NeedsPassword then 0
    else 1 + LockAt(es[1..], want, done + {es[0].name})
  }

  /** A 7z walk is the ZIP walk over the same entries under slash names, up to
      the first one that asks for a password. */
  lemma {:induction false} SevenzipWalksLikeZip<S>(es: seq<ArchiveEntry>, want: set<string>, done: set<string>, sink: Sink<S>, s: S)
    ensures Walk7z(es, want, done, sink, s) ==
      var k := LockAt(Slashed(es), want, done);
      var zip := WalkZip(Slashed(es)[..k], want, done, sink, s);
      if zip.1.Some? || k == |es| then zip else (zip.0, Some(EncryptedArchive))
    decreases |es|
  {
    hide SlashName;
    if es != [] {
      var all, k := Slashed(es), LockAt(Slashed(es), want, done);
      SlashedStep(es);
      var e := all[0];
      if k > 0 {
        assert all[..k][0] == e && all[..k][1..] == all[1..][..k - 1];
      }
      if e.name !in want || e.name in done || e.opening == WontOpen {
        SevenzipWalksLikeZip(es[1..], want, done, sink, s);
      } else if e.opening == Opens {
        match sink(s, e.name, e.Contents())
        case Stop(_, _) =>
        case GoOn(s', _) => SevenzipWalksLikeZip(es[1..], want, done + {e.name}, sink, s');
      }
    }
  }

  /** The entries as a RAR walk sees them: its reader opens none, it just
      decodes on. */
  function AsOpened(es: seq<ArchiveEntry>): (r: seq<ArchiveEntry>)
    ensures |r| == |es| && AllOpen(r)
    ensures forall i :: 0 <= i < |es| ==> r[i] == es[i].(opening := Opens)
  {
    seq(|es|, i requires 0 <= i < |es| => es[i].(opening := Opens))
  }

  lemma {:induction false} RarIgnoresOpening<S>(rar: Rar, i: nat, intact: bool, drained: int, want: set<string>, done: set<string>, sink: Sink<S>, s: S)
    requires i <= |rar.entries|
    ensures WalkRar(rar.(entries := AsOpened(rar.entries)), i, intact, drained, want, done, sink, s)
      == WalkRar(rar, i, intact, drained, want, done, sink, s)
    decreases |rar.entries| - i
  {
    hide Drain;
    var rar' := rar.(entries := AsOpened(rar.entries));
    if !(want <= done) && i < |rar.entries| {
      var name, r := rar.entries[i].name, Decoded(rar, i, intact);
      assert Decoded(rar', i, intact) == r;
      var out := if name in want && name !in done then sink(s, name, r) else GoOn(s, 0);
      if out.GoOn? {
        var done' := if name in want && name !in done then done + {name} else done;
        var (n, _) := Drain(r, out.consumed, drained);
        RarIgnoresOpening(rar, i + 1, false, drained, want, done', sink, out.s);
        RarIgnoresOpening(rar, i + 1, intact && out.consumed + n == |r.data| && r.end == Eof, drained + n, want, done', sink, out.s);
      }
    }
  }

  /** The names a prefix of the archive settles. */
  function Names(es: seq<ArchiveEntry>): set<string> {
    set e | e in es :: e.name
  }

  /** Why a RAR walk stopped where it did: everything wanted was reached, or the
      archive ended, or the sink ended the walk, or a solid archive's last
      reached entry would not decode or used up the budget. */
  ghost predicate Accounted<S>(rar: Rar, i: nat, want: set<string>, done: set<string>, end: RarEnd<S>) {
    && i <= end.reached <= |rar.entries|
    && (|| end.err.Some?
        || end.reached == |rar.entries|
        || want <= done + Names(rar.entries[i..end.reached])
        || CutShort(rar, end))
  }

  /** A solid archive's last reached entry would not decode, or decoding what
      was stepped over used up the budget. */
  ghost predicate CutShort<S>(rar: Rar, end: RarEnd<S>) {
    && rar.solid && 0 < end.reached <= |rar.entries|
    && (rar.entries[end.reached - 1].end != Eof || end.drained >= SolidDrainCap)
  }

  /** What running off the archive's end answers. */
  function TailError(tail: ReadEnd): Option<WalkError> {
    match tail
    case Eof => None
    case Locked => Some(EncryptedArchive)
    case Broken => Some(BrokenArchive)
  }

  /** The walk ran off the end with something still wanted. */
  ghost predicate RanOut<S>(rar: Rar, i: nat, want: set<string>, done: set<string>, end: RarEnd<S>)
    requires i <= end.reached <= |rar.entries|
  {
    end.reached == |rar.entries| && !CutShort(rar, end) && !(want <= done + Names(rar.entries[i..end.reached]))
  }

  /** The walk's end is what a ZIP walk over the entries it reached gives, and
      the archive's tail when it ran out. */
  ghost predicate LikeZip<S>(rar: Rar, i: nat, want: set<string>, done: set<string>, sink: Sink<S>, s: S, end: RarEnd<S>) {
    && i <= end.reached <= |rar.entries|
    && var zip := WalkZip(rar.entries[i..end.reached], want, done, sink, s);
       && end.s == zip.0
       && end.err == if zip.1.Some? then zip.1 else if RanOut(rar, i, want, done, end) then TailError(rar.tail) else None
  }

  /** In a solid archive the walk only goes on behind an entry that was decoded
      in full, within the budget. */
  ghost predicate GoesOn(rar: Rar, i: nat, intact: bool, drained: int)
    requires i <= |rar.entries|
  {
    rar.solid ==> intact && (i > 0 ==> rar.entries[i - 1].end == Eof && drained < SolidDrainCap)
  }

  /** An entry before `j` does not change what a walk reached after it. */
  lemma Prepend<S>(rar: Rar, i: nat, want: set<string>, done: set<string>, sink: Sink<S>, s: S, done': set<string>, s': S, end: RarEnd<S>)
    requires i < |rar.entries| && rar.entries[i].opening == Opens
    requires var e := rar.entries[i];
      if e.name !in want || e.name in done then done' == done && s' == s
      else done' == done + {e.name} && sink(s, e.name, e.Contents()).GoOn? && s' == sink(s, e.name, e.Contents()).s
    requires Accounted(rar, i + 1, want, done', end) && LikeZip(rar, i + 1, want, done', sink, s', end)
    ensures Accounted(rar, i, want, done, end) && LikeZip(rar, i, want, done, sink, s, end)
  {
    ZipStep(rar.entries, i, end.reached, want, done, sink, s);
    NamesStep(rar.entries, i, end.reached);
  }

  lemma StopsHere<S>(rar: Rar, i: nat, want: set<string>, done: set<string>, sink: Sink<S>, s: S, err: WalkError, s': S, drained: int)
    requires i < |rar.entries| && rar.entries[i].opening == Opens
    requires var e := rar.entries[i];
      e.name in want && e.name !in done && sink(s, e.name, e.Contents()) == Stop(s', err)
    ensures var end := RarEnd(s', Some(err), i + 1, drained);
      Accounted(rar, i, want, done, end) && LikeZip(rar, i, want, done, sink, s, end)
  {
    ZipStep(rar.entries, i, i + 1, want, done, sink, s);
  }

  /** A RAR walk makes the same sink calls as a ZIP walk over the entries it
      reached, each with the entry's own bytes: in a solid archive no call is
      made unless everything before it was decoded in full. */
  lemma {:induction false} RarWalksLikeZip<S>(rar: Rar, i: nat, intact: bool, drained: int, want: set<string>, done: set<string>, sink: Sink<S>, s: S)
    requires i <= |rar.entries| && AllOpen(rar.entries) && GoesOn(rar, i, intact, drained)
    ensures Accounted(rar, i, want, done, WalkRar(rar, i, intact, drained, want, done, sink, s))
    ensures LikeZip(rar, i, want, done, sink, s, WalkRar(rar, i, intact, drained, want, done, sink, s))
    decreases |rar.entries| - i
  {
    hide Accounted, LikeZip;
    var end := WalkRar(rar, i, intact, drained, want, done, sink, s);
    if want <= done || i == |rar.entries| {
      EmptyWalk(rar, i, intact, drained, want, done, sink, s);
    } else {
      assert rar.entries[i] in rar.entries;
      var name, r := rar.entries[i].name, Decoded(rar, i, intact);
      var out := if name in want && name !in done then sink(s, name, r) else GoOn(s, 0);
      match out
      case Stop(s', err) =>
        StopsHere(rar, i, want, done, sink, s, err, s', drained);
      case GoOn(s', consumed) =>
        var done' := if name in want && name !in done then done + {name} else done;
        RarGoesOn(rar, i, drained, want, done', sink, s', r, consumed, end);
        if !(rar.solid && !(want <= done') && Drain(r, consumed, drained).1) {
          var (n, _) := Drain(r, consumed, drained);
          if rar.solid && !(want <= done') {
            RarWalksLikeZip(rar, i + 1, true, drained + n, want, done', sink, s');
          } else if !rar.solid {
            RarWalksLikeZip(rar, i + 1, false, drained, want, done', sink, s');
          }
        }
        Prepend(rar, i, want, done, sink, s, done', s', end);
    }
  }

  lemma EmptyWalk<S>(rar: Rar, i: nat, intact: bool, drained: int, want: set<string>, done: set<string>, sink: Sink<S>, s: S)
    requires i <= |rar.entries| && (want <= done || i == |rar.entries|) && GoesOn(rar, i, intact, drained)
    ensures var end := WalkRar(rar, i, intact, drained, want, done, sink, s);
      Accounted(rar, i, want, done, end) && LikeZip(rar, i, want, done, sink, s, end)
  {
    assert rar.entries[i..i] == [];
    assert done + Names([]) == done;
  }

  /** After an entry the walk either goes on with the archive still decodable,
      or gives up there. */
  lemma RarGoesOn<S>(rar: Rar, i: nat, drained: int, want: set<string>, done': set<string>, sink: Sink<S>, s': S, r: Reader, consumed: nat, end: RarEnd<S>)
    requires i < |rar.entries| && r == rar.entries[i].Contents()
    requires var (n, gaveUp) := Drain(r, consumed, drained);
      end == if !rar.solid || want <= done' then WalkRar(rar, i + 1, false, drained, want, done', sink, s')
             else if gaveUp then RarEnd(s', None, i + 1, drained + n)
             else WalkRar(rar, i + 1, consumed + n == |r.data| && r.end == Eof, drained + n, want, done', sink, s')
    ensures var (n, gaveUp) := Drain(r, consumed, drained);
      if rar.solid && !(want <= done') && gaveUp then
        Accounted(rar, i + 1, want, done', end) && LikeZip(rar, i + 1, want, done', sink, s', end)
      else if rar.solid && !(want <= done') then
        end == WalkRar(rar, i + 1, true, drained + n, want, done', sink, s')
      else if rar.solid then
        Accounted(rar, i + 1, want, done', end) && LikeZip(rar, i + 1, want, done', sink, s', end)
      else
        end == WalkRar(rar, i + 1, false, drained, want, done', sink, s')
  {
    assert rar.entries[i + 1..i + 1] == [];
  }

  lemma NamesStep(es: seq<ArchiveEntry>, i: nat, j: nat)
    requires i < j <= |es|
    ensures Names(es[i..j]) == {es[i].name} + Names(es[i + 1..j])
  {
    assert es[i..j] == [es[i]] + es[i + 1..j];
  }

  lemma ZipStep<S>(es: seq<ArchiveEntry>, i: nat, j: nat, want: set<string>, done: set<string>, sink: Sink<S>, s: S)
    requires i < j <= |es| && es[i].opening == Opens
    ensures WalkZip(es[i..j], want, done, sink, s) ==
      if es[i].name !in want || es[i].name in done then WalkZip(es[i + 1..j], want, done, sink, s)
      else
        match sink(s, es[i].name, es[i].Contents())
        case Stop(s', err) => (s', Some(err))
        case GoOn(s', _) => WalkZip(es[i + 1..j], want, done + {es[i].name}, sink, s')
  {
    assert es[i..j][1..] == es[i + 1..j];
  }

  /** What a solid archive may cost is bounded, however the sink behaves. */
  lemma {:induction false} DrainWithinCap<S(!new)>(rar: Rar, i: nat, intact: bool, drained: int, want: set<string>, done: set<string>, sink: Sink<S>, s: S)
    requires i <= |rar.entries| && 0 <= drained <= SolidDrainCap && Honest(sink)
    ensures 0 <= WalkRar(rar, i, intact, drained, want, done, sink, s).drained <= SolidDrainCap
    ensures !rar.solid ==> WalkRar(rar, i, intact, drained, want, done, sink, s).drained == drained
    decreases |rar.entries| - i
  {
    if !(want <= done) && i < |rar.entries| {
      var name, r := rar.entries[i].name, Decoded(rar, i, intact);
      var out := if name in want && name !in done then sink(s, name, r) else GoOn(s, 0);
      match out
      case Stop(_, _) =>
      case GoOn(s', consumed) =>
        assert consumed <= |r.data|;
        var done' := if name in want && name !in done then done + {name} else done;
        var (n, gaveUp) := Drain(r, consumed, drained);
        if !rar.solid || want <= done' {
          DrainWithinCap(rar, i + 1, false, drained, want, done', sink, s');
        } else if !gaveUp {
          DrainWithinCap(rar, i + 1, intact && consumed + n == |r.data| && r.end == Eof, drained + n, want, done', sink, s');
        }
    }
  }

  // ------------------------------------------------------------------
  // What a sink keeps, a walk keeps
  // ------------------------------------------------------------------

  /** Every call a walk can make preserves `inv`: the name is wanted and has not
      been delivered before. */
  ghost predicate Kept<S(!new)>(want: set<string>, sink: Sink<S>, inv: (set<string>, S) -> bool) {
    forall done, s, name, r :: inv(done, s) && name in want && name !in done ==>
      inv(if sink(s, name, r).GoOn? then done + {name} else done, sink(s, name, r).s)
  }

  lemma KeptStep<S(!new)>(want: set<string>, done: set<string>, sink: Sink<S>, s: S, name: string, r: Reader, inv: (set<string>, S) -> bool)
    requires Kept(want, sink, inv) && inv(done, s) && name in want && name !in done
    ensures inv(if sink(s, name, r).GoOn? then done + {name} else done, sink(s, name, r).s)
  {
  }

  lemma {:induction false} ZipKeeps<S(!new)>(es: seq<ArchiveEntry>, want: set<string>, done: set<string>, sink: Sink<S>, s: S, inv: (set<string>, S) -> bool) returns (d: set<string>)
    requires Kept(want, sink, inv) && inv(done, s)
    ensures inv(d, WalkZip(es, want, done, sink, s).0)
    decreases |es|
  {
    d := done;
    if es != [] {
      var e := es[0];
      if e.name !in want || e.name in done || e.opening != Opens {
        d := ZipKeeps(es[1..], want, done, sink, s, inv);
      } else {
        var out := sink(s, e.name, e.Contents());
        assert inv(if out.GoOn? then done + {e.name} else done, out.s);
        if out.GoOn? {
          d := ZipKeeps(es[1..], want, done + {e.name}, sink, out.s, inv);
        }
      }
    }
  }

  lemma {:induction false} SevenzipKeeps<S(!new)>(es: seq<ArchiveEntry>, want: set<string>, done: set<string>, sink: Sink<S>, s: S, inv: (set<string>, S) -> bool) returns (d: set<string>)
    requires Kept(want, sink, inv) && inv(done, s)
    ensures inv(d, Walk7z(es, want, done, sink, s).0)
    decreases |es|
  {
    d := done;
    if es != [] {
      var e, name := es[0], SlashName(es[0].name);
      if name !in want || name in done || e.opening == WontOpen {
        d := SevenzipKeeps(es[1..], want, done, sink, s, inv);
      } else if e.opening == Opens {
        var out := sink(s, name, e.Contents());
        assert inv(if out.GoOn? then done + {name} else done, out.s);
        if out.GoOn? {
          d := SevenzipKeeps(es[1..], want, done + {name}, sink, out.s, inv);
        }
      }
    }
  }

  lemma {:induction false} RarKeeps<S(!new)>(rar: Rar, i: nat, intact: bool, drained: int, want: set<string>, done: set<string>, sink: Sink<S>, s: S, inv: (set<string>, S) -> bool) returns (d: set<string>)
    requires i <= |rar.entries| && Kept(want, sink, inv) && inv(done, s)
    ensures inv(d, WalkRar(rar, i, intact, drained, want, done, sink, s).s)
    decreases |rar.entries| - i
  {
    hide Kept, Drain, Decoded;
    d := done;
    if !(want <= done) && i < |rar.entries| {
      var name, r := rar.entries[i].name, Decoded(rar, i, intact);
      var out := if name in want && name !in done then sink(s, name, r) else GoOn(s, 0);
      var done' := if name in want && name !in done && out.GoOn? then done + {name} else done;
      if name in want && name !in done {
        KeptStep(want, done, sink, s, name, r, inv);
      }
      d := done';
      if out.GoOn? {
        var (n, gaveUp) := Drain(r, out.consumed, drained);
        if !rar.solid || want <= done' {
          d := RarKeeps(rar, i + 1, false, drained, want, done', sink, out.s, inv);
        } else if !gaveUp {
          d := RarKeeps(rar, i + 1, intact && out.consumed + n == |r.data| && r.end == Eof, drained + n, want, done', sink, out.s, inv);
        }
      }
    }
  }

  // ------------------------------------------------------------------
  // The buffered read
  // ------------------------------------------------------------------

  datatype ReadFault = OverCap | Undecodable | WantsPassword

  /** What reading at most `n` bytes sees: with that many there, the end of
      the entry is not reached. */
  function Limited(r: Reader, n: nat): (out: Reader)
    ensures out.data <= r.data
  {
    if |r.data| >= n then Reader(r.data[..n], Eof) else r
  }

  /** Reads an entry whole, through a limit one byte past the cap so that an
      entry landing on it is not mistaken for one over it; also how much was
      read. The limit hides nothing of an entry within the cap: it comes back
      whole exactly when it decodes to its end, and the size decides first. */
  function ReadCapped(r: Reader, max: nat): (out: (Result<Bytes, ReadFault>, nat))
    ensures |r.data| > max <==> out.0 == Err(OverCap)
    ensures |r.data| <= max && r.end == Eof <==> out.0 == Ok(r.data)
    ensures out.0.Ok? ==> out.0.value == r.data
    ensures |r.data| <= max && r.end == Locked <==> out.0 == Err(WantsPassword)
    ensures |r.data| <= max ==> out.1 == |r.data|
    ensures |r.data| > max ==> out.1 == max + 1
  {
    var got := Limited(r, max + 1);
    if got.end != Eof then (Err(if got.end == Locked then WantsPassword else Undecodable), |got.data|)
    else if |got.data| > max then (Err(OverCap), |got.data|)
    else (Ok(got.data), |got.data|)
  }

  /** The sink of the buffered read. `locks` says whether this container can
      tell a password failure from any other. */
  function ReadSink(caps: map<string, nat>, locks: bool): Sink<map<string, Bytes>> {
    (out: map<string, Bytes>, name: string, r: Reader) =>
      var (got, used) := ReadCapped(r, if name in caps then caps[name] else 0);
      match got
      case Ok(b) => GoOn(out[name := b], used)
      case Err(why) => if locks && why == WantsPassword then Stop(out, EncryptedArchive) else GoOn(out, used)
  }

  datatype Comic = Zip(entries: seq<ArchiveEntry>) | SevenZip(entries: seq<ArchiveEntry>) | RarComic(rar: Rar)

  function EntriesOf(c: Comic): seq<ArchiveEntry> {
    if c.RarComic? then c.rar.entries else c.entries
  }

  method WalkerRead(c: Comic, caps: map<string, nat>) returns (r: Result<map<string, Bytes>, WalkError>, ghost reached: nat)
    ensures (r, reached) == BufferedRead(c, caps)
  {
    var out: map<string, Bytes>;
    var err: Option<WalkError>;
    reached := |EntriesOf(c)|;
    match c {
      case Zip(es) => out, err := StreamZip(es, caps.Keys, ReadSink(caps, false), map[]);
      case SevenZip(es) => out, err := Stream7z(es, caps.Keys, ReadSink(caps, true), map[]);
      case RarComic(rar) =>
        ghost var end;
        out, err, end := StreamRar(rar, caps.Keys, ReadSink(caps, true), map[]);
        reached := end.reached;
    }
    r := if err.Some? then Err(err.value) else Ok(out);
  }

  /** The entries of a comic as its walk sees them: 7z replaces backslashes, and
      RAR opens nothing. */
  function Listed(c: Comic): seq<ArchiveEntry> {
    match c
    case Zip(es) => es
    case SevenZip(es) => Slashed(es)
    case RarComic(rar) => AsOpened(rar.entries)
  }

  /** The result of the read and the number of entries the walk reached. */
  ghost function BufferedRead(c: Comic, caps: map<string, nat>): (Result<map<string, Bytes>, WalkError>, nat) {
    match c
    case Zip(es) => (Outcome(WalkZip(es, caps.Keys, {}, ReadSink(caps, false), map[])), |es|)
    case SevenZip(es) => (Outcome(Walk7z(es, caps.Keys, {}, ReadSink(caps, true), map[])), |es|)
    case RarComic(rar) =>
      (Outcome((RarRead(rar, caps).s, RarRead(rar, caps).err)), RarRead(rar, caps).reached)
  }

  ghost function RarRead(rar: Rar, caps: map<string, nat>): RarEnd<map<string, Bytes>> {
    WalkRar(rar, 0, true, 0, caps.Keys, {}, ReadSink(caps, true), map[])
  }

  ghost function Outcome(end: (map<string, Bytes>, Option<WalkError>)): Result<map<string, Bytes>, WalkError> {
    if end.1.Some? then Err(end.1.value) else Ok(end.0)
  }

  // ------------------------------------------------------------------
  // What the read means
  // ------------------------------------------------------------------

  /** Where the first entry of that name is, or the length when there is none. */
  function First(es: seq<ArchiveEntry>, name: string): (i: nat)
    ensures i <= |es|
    ensures i < |es| ==> es[i].name == name
    ensures forall j :: 0 <= j < i ==> es[j].name != name
  {
    if es == [] || es[0].name == name then 0 else 1 + First(es[1..], name)
  }

  /** The first entry of each wanted name, if it decodes within its cap. */
  ghost function Lookup(es: seq<ArchiveEntry>, caps: map<string, nat>): map<string, Bytes> {
    map n | n in caps && Found(es, n, caps[n]) :: es[First(es, n)].data
  }

  ghost predicate Found(es: seq<ArchiveEntry>, name: string, cap: nat) {
    var i := First(es, name);
    i < |es| && es[i].end == Eof && |es[i].data| <= cap
  }

  /** Entry `i` fails a read that can tell locked entries: it is wanted, no
      entry of its name was handed over before, and it asks for a password when
      opened or within its cap. */
  ghost predicate LocksAt(es: seq<ArchiveEntry>, caps: map<string, nat>, i: nat) {
    && i < |es| && es[i].name in caps
    && (forall j :: 0 <= j < i && es[j].name == es[i].name ==> es[j].opening != Opens)
    && LocksRead(es[i], caps[es[i].name])
  }

  ghost predicate LocksRead(e: ArchiveEntry, cap: nat) {
    e.opening == NeedsPassword || (e.opening == Opens && e.end == Locked && |e.data| <= cap)
  }

  ghost predicate Locks(es: seq<ArchiveEntry>, caps: map<string, nat>) {
    exists i: nat :: LocksAt(es, caps, i)
  }

  /** The same, for a walk that has settled `done`. */
  ghost predicate LocksAfter(es: seq<ArchiveEntry>, caps: map<string, nat>, done: set<string>) {
    if es == [] then false
    else if es[0].name !in caps || es[0].name in done || es[0].opening == WontOpen then LocksAfter(es[1..], caps, done)
    else LocksRead(es[0], caps[es[0].name]) || LocksAfter(es[1..], caps, done + {es[0].name})
  }

  lemma {:induction false} AfterGivesLock(es: seq<ArchiveEntry>, caps: map<string, nat>, done: set<string>) returns (i: nat)
    requires LocksAfter(es, caps, done)
    ensures LocksAt(es, caps, i) && es[i].name !in done
  {
    hide LocksRead;
    var e, rest := es[0], es[1..];
    if e.name !in caps || e.name in done || e.opening == WontOpen {
      i := AfterGivesLock(rest, caps, done);
      LocksLater(es, caps, i);
      i := i + 1;
    } else if LocksRead(e, caps[e.name]) {
      i := 0;
    } else {
      i := AfterGivesLock(rest, caps, done + {e.name});
      LocksLater(es, caps, i);
      i := i + 1;
    }
  }

  lemma {:induction false} LockGivesAfter(es: seq<ArchiveEntry>, caps: map<string, nat>, done: set<string>, i: nat)
    requires LocksAt(es, caps, i) && es[i].name !in done
    ensures LocksAfter(es, caps, done)
  {
    hide LocksRead;
    var e := es[0];
    LockedNowLocks(e, if e.name in caps then caps[e.name] else 0);
    if i > 0 {
      LocksEarlier(es, caps, i);
      if e.name !in caps || e.name in done || e.opening == WontOpen {
        LockGivesAfter(es[1..], caps, done, i - 1);
      } else if e.opening == Opens {
        LockGivesAfter(es[1..], caps, done + {e.name}, i - 1);
      }
    }
  }

  lemma LocksMeans(es: seq<ArchiveEntry>, caps: map<string, nat>)
    ensures LocksAfter(es, caps, {}) <==> Locks(es, caps)
  {
    hide LocksAfter, LocksAt;
    if LocksAfter(es, caps, {}) {
      var i := AfterGivesLock(es, caps, {});
    }
    if Locks(es, caps) {
      var i: nat :| LocksAt(es, caps, i);
      LockGivesAfter(es, caps, {}, i);
    }
  }

  lemma LockedNowLocks(e: ArchiveEntry, cap: nat)
    ensures LocksRead(e, cap) ==> e.opening != WontOpen
    ensures e.opening == NeedsPassword ==> LocksRead(e, cap)
  {
  }

  lemma LocksLater(es: seq<ArchiveEntry>, caps: map<string, nat>, i: nat)
    requires es != [] && LocksAt(es[1..], caps, i) && (es[0].opening == Opens ==> es[0].name != es[1..][i].name)
    ensures LocksAt(es, caps, i + 1) && es[i + 1] == es[1..][i]
  {
    forall j | 0 <= j < i + 1 && es[j].name == es[i + 1].name ensures es[j].opening != Opens {
      if j > 0 {
        assert es[j] == es[1..][j - 1];
      }
    }
  }

  lemma LocksEarlier(es: seq<ArchiveEntry>, caps: map<string, nat>, i: nat)
    requires i > 0 && LocksAt(es, caps, i)
    ensures LocksAt(es[1..], caps, i - 1) && es[1..][i - 1] == es[i]
    ensures es[0].opening == Opens ==> es[0].name != es[i].name
  {
    forall j | 0 <= j < i - 1 && es[1..][j].name == es[i].name ensures es[1..][j].opening != Opens {
      assert es[j + 1] == es[1..][j];
    }
  }

  /** Two maps that differ at most at `n`. */
  ghost predicate SameBut(a: map<string, Bytes>, b: map<string, Bytes>, n: string) {
    forall k :: k != n ==> (k in a <==> k in b) && (k in a ==> a[k] == b[k])
  }

  /** The first entry decides its own name and no other. */
  lemma LookupStep(es: seq<ArchiveEntry>, caps: map<string, nat>)
    requires es != []
    ensures SameBut(Lookup(es, caps), Lookup(es[1..], caps), es[0].name)
    ensures es[0].name in Lookup(es, caps) <==>
      es[0].name in caps && es[0].end == Eof && |es[0].data| <= caps[es[0].name]
    ensures es[0].name in Lookup(es, caps) ==> Lookup(es, caps)[es[0].name] == es[0].data
    ensures Lookup(es[1..], caps).Keys <= caps.Keys
  {
    var a, b := Lookup(es, caps), Lookup(es[1..], caps);
    forall k | k != es[0].name ensures (k in a <==> k in b) && (k in a ==> a[k] == b[k]) {
      assert First(es, k) == 1 + First(es[1..], k);
    }
  }

  /** What the sink makes of one entry. */
  lemma ReadStep(caps: map<string, nat>, locks: bool, out: map<string, Bytes>, name: string, r: Reader)
    requires name in caps
    ensures var a, within := ReadSink(caps, locks)(out, name, r), |r.data| <= caps[name];
      if locks && within && r.end == Locked then a == Stop(out, EncryptedArchive)
      else a.GoOn? && a.s == if within && r.end == Eof then out[name := r.data] else out
  {
    hide Limited;
  }

  /** A walk that has settled the names in `done` adds the lookup of the rest,
      unless it can tell a locked entry and meets one. */
  lemma {:induction false} ZipReads(es: seq<ArchiveEntry>, caps: map<string, nat>, locks: bool, done: set<string>, out: map<string, Bytes>)
    requires AllOpen(es) && out.Keys <= done
    ensures var w := WalkZip(es, caps.Keys, done, ReadSink(caps, locks), out);
      if locks && LocksAfter(es, caps, done) then w.1 == Some(EncryptedArchive)
      else w == (out + (Lookup(es, caps) - done), None)
    decreases |es|
  {
    hide Lookup, ReadSink;
    if es == [] {
      EmptyLookup(caps);
      assert out + (map[] - done) == out;
    } else {
      assert es[0] in es;
      var e, looked, more := es[0], Lookup(es, caps), Lookup(es[1..], caps);
      LookupStep(es, caps);
      if e.name !in caps || e.name in done {
        ZipReads(es[1..], caps, locks, done, out);
        SkipName(looked, more, e.name, done);
      } else {
        ReadStep(caps, locks, out, e.name, e.Contents());
      }
      if e.name in caps && e.name !in done && !(locks && LocksRead(e, caps[e.name])) {
        var out' := if |e.data| <= caps[e.name] && e.end == Eof then out[e.name := e.data] else out;
        ZipReads(es[1..], caps, locks, done + {e.name}, out');
        SettleName(looked, more, e.name, done, out, out');
      }
    }
  }

  /** The same for 7z, whose entries may also ask for a password when opened. */
  lemma {:induction false} SevenzipReads(es: seq<ArchiveEntry>, caps: map<string, nat>, done: set<string>, out: map<string, Bytes>)
    requires out.Keys <= done
    ensures var w := Walk7z(es, caps.Keys, done, ReadSink(caps, true), out);
      if LocksAfter(Slashed(es), caps, done) then w.1 == Some(EncryptedArchive)
      else w == (out + (Lookup(Openable(Slashed(es)), caps) - done), None)
    decreases |es|
  {
    hide Lookup, SlashName, ReadSink;
    if es == [] {
      EmptyLookup(caps);
      assert out + (map[] - done) == out;
    } else {
      SlashedStep(es);
      var all := Slashed(es);
      var e, looked, more := all[0], Lookup(Openable(all), caps), Lookup(Openable(all[1..]), caps);
      if e.opening == Opens {
        assert Openable(all)[0] == e && Openable(all)[1..] == Openable(all[1..]);
        LookupStep(Openable(all), caps);
      }
      if e.name !in caps || e.name in done || e.opening == WontOpen {
        SevenzipReads(es[1..], caps, done, out);
        if e.opening == Opens {
          SkipName(looked, more, e.name, done);
        }
      } else {
        ReadStep(caps, true, out, e.name, e.Contents());
      }
      if e.name in caps && e.name !in done && e.opening != WontOpen && !LocksRead(e, caps[e.name]) {
        var out' := if |e.data| <= caps[e.name] && e.end == Eof then out[e.name := e.data] else out;
        SevenzipReads(es[1..], caps, done + {e.name}, out');
        SettleName(looked, more, e.name, done, out, out');
      }
    }
  }

  lemma EmptyLookup(caps: map<string, nat>)
    ensures Lookup([], caps) == map[]
  {
  }

  lemma SkipName(a: map<string, Bytes>, b: map<string, Bytes>, n: string, done: set<string>)
    requires SameBut(a, b, n) && (n in done || (n !in a && n !in b))
    ensures a - done == b - done
  {
    forall k ensures k in a - done <==> k in b - done {
    }
    forall k | k in a - done ensures (a - done)[k] == (b - done)[k] {
      assert k != n;
    }
  }

  lemma SettleName(a: map<string, Bytes>, b: map<string, Bytes>, n: string, done: set<string>, out: map<string, Bytes>, out': map<string, Bytes>)
    requires SameBut(a, b, n) && n !in done && n !in out
    requires out' == if n in a then out[n := a[n]] else out
    ensures out' + (b - (done + {n})) == out + (a - done)
  {
    var l, r := out' + (b - (done + {n})), out + (a - done);
    forall k ensures k in l <==> k in r {
    }
    forall k | k in l ensures l[k] == r[k] {
    }
  }

  lemma LookupOfReached(es: seq<ArchiveEntry>, k: nat, caps: map<string, nat>)
    requires k <= |es| && (k == |es| || caps.Keys <= Names(es[..k]))
    ensures Lookup(es[..k], caps) == Lookup(es, caps)
  {
    assert k == |es| ==> es[..k] == es;
    forall n | n in caps ensures First(es[..k], n) == First(es, n) {
      if k < |es| {
        assert n in Names(es[..k]);
        FirstInPrefix(es, k, n);
      }
    }
    forall n | n in caps ensures Found(es[..k], n, caps[n]) == Found(es, n, caps[n]) {
      if k < |es| {
        FirstInPrefix(es, k, n);
      }
    }
  }

  lemma FirstInPrefix(es: seq<ArchiveEntry>, k: nat, n: string)
    requires k <= |es| && n in Names(es[..k])
    ensures First(es[..k], n) == First(es, n) < k
  {
    var e :| e in es[..k] && e.name == n;
    var j :| 0 <= j < k && es[..k][j] == e;
    var a, b := First(es[..k], n), First(es, n);
    assert es[j].name == n;
    assert es[..k][a] == es[a] && es[..k][b] == es[b];
  }

  lemma NothingDone(es: seq<ArchiveEntry>, caps: map<string, nat>)
    ensures map[] + (Lookup(es, caps) - {}) == Lookup(es, caps)
  {
  }

  /** What each container hands back, for any entries: the first one of each
      wanted name that opens, if it decodes within its cap. A ZIP never refuses
      the archive; 7z, which also replaces backslashes, and RAR refuse it exactly
      when an entry they would hand over is locked. So on entries that open, are
      not locked and have no backslashes all three agree. */
  lemma ContainersAgree(es: seq<ArchiveEntry>, caps: map<string, nat>, garbage: nat -> Reader)
    ensures BufferedRead(Zip(es), caps).0 == Ok(Lookup(Openable(es), caps))
    ensures BufferedRead(SevenZip(es), caps).0 ==
      if Locks(Slashed(es), caps) then Err(EncryptedArchive) else Ok(Lookup(Openable(Slashed(es)), caps))
    ensures BufferedRead(RarComic(Rar(es, false, Eof, garbage)), caps).0 ==
      if Locks(AsOpened(es), caps) then Err(EncryptedArchive) else Ok(Lookup(AsOpened(es), caps))
  {
    hide WalkZip, Walk7z, WalkRar, ReadSink, Lookup, LocksAfter, LocksAt, SlashName;
    ZipWalksOpenable(es, caps.Keys, {}, ReadSink(caps, false), map[]);
    ZipReads(Openable(es), caps, false, {}, map[]);
    NothingDone(Openable(es), caps);
    SevenzipReads(es, caps, {}, map[]);
    LocksMeans(Slashed(es), caps);
    NothingDone(Openable(Slashed(es)), caps);
    var rar := Rar(es, false, Eof, garbage);
    RarReadsReached(rar, caps);
    WholeWhenFree(rar, caps);
  }

  /** Outside solid archives nothing is cut short. */
  lemma WholeWhenFree(rar: Rar, caps: map<string, nat>)
    requires !rar.solid
    ensures !CutShort(rar, RarRead(rar, caps))
  {
    hide WalkRar;
  }

  lemma OpenPrefix(es: seq<ArchiveEntry>, k: nat)
    requires AllOpen(es) && k <= |es|
    ensures AllOpen(es[..k])
  {
  }

  lemma LocksGrow(es: seq<ArchiveEntry>, k: nat, caps: map<string, nat>)
    requires k <= |es| && Locks(es[..k], caps)
    ensures Locks(es, caps)
  {
    hide LocksRead;
    var i: nat :| LocksAt(es[..k], caps, i);
    forall j | 0 <= j < i && es[j].name == es[i].name ensures es[j].opening != Opens {
      assert es[..k][j] == es[j];
    }
    assert LocksAt(es, caps, i);
  }

  /** A locked entry counts only where its name is first met. */
  lemma LocksInPrefix(es: seq<ArchiveEntry>, k: nat, caps: map<string, nat>)
    requires AllOpen(es) && k <= |es| && (k == |es| || caps.Keys <= Names(es[..k])) && Locks(es, caps)
    ensures Locks(es[..k], caps)
  {
    hide LocksRead;
    if k == |es| {
      assert es[..k] == es;
    } else {
      var i: nat :| LocksAt(es, caps, i);
      FirstInPrefix(es, k, es[i].name);
      assert es[First(es, es[i].name)] in es;
      assert i == First(es, es[i].name);
      assert forall l :: 0 <= l < i ==> es[..k][l] == es[l];
      assert LocksAt(es[..k], caps, i);
    }
  }

  /** A RAR read, solid or not, over the entries its walk reached: it refuses
      the archive exactly when a wanted one of them is locked within its cap, or
      when it ran off a tail that is not clean; otherwise it is their lookup.
      What was reached is all that matters unless a solid archive was cut
      short. */
  lemma RarReadsReached(rar: Rar, caps: map<string, nat>)
    ensures var end := RarRead(rar, caps);
      end.reached <= |rar.entries| &&
      var all := AsOpened(rar.entries);
      var es := all[..end.reached];
      && end.err == (if Locks(es, caps) then Some(EncryptedArchive)
                     else if end.reached == |all| && !CutShort(rar, end) && !(caps.Keys <= Names(all)) then TailError(rar.tail)
                     else None)
      && (!Locks(es, caps) ==> end.s == Lookup(es, caps))
      && (!CutShort(rar, end) ==>
            (Locks(es, caps) <==> Locks(all, caps)) && (!Locks(es, caps) ==> Lookup(es, caps) == Lookup(all, caps)))
    ensures BufferedRead(RarComic(rar), caps) ==
      (Outcome((RarRead(rar, caps).s, RarRead(rar, caps).err)), RarRead(rar, caps).reached)
  {
    hide WalkRar, WalkZip, AllOpen, Lookup, CutShort, ReadSink, LocksAfter, LocksAt, Locks;
    var sink := ReadSink(caps, true);
    var end := RarRead(rar, caps);
    var all := AsOpened(rar.entries);
    var rar' := rar.(entries := all);
    RarIgnoresOpening(rar, 0, true, 0, caps.Keys, {}, sink, map[]);
    RarWalksLikeZip(rar', 0, true, 0, caps.Keys, {}, sink, map[]);
    var es := all[..end.reached];
    assert all[0..end.reached] == es;
    OpenPrefix(all, end.reached);
    ZipReads(es, caps, true, {}, map[]);
    NothingDone(es, caps);
    LocksMeans(es, caps);
    CutAlike(rar, end);
    assert {} + Names(es) == Names(es);
    if end.reached == |all| {
      assert es == all;
    }
    if Locks(es, caps) {
      LocksGrow(all, end.reached, caps);
    } else if !CutShort(rar, end) {
      LookupOfReached(all, end.reached, caps);
      if Locks(all, caps) {
        LocksInPrefix(all, end.reached, caps);
      }
    }
  }

  lemma CutAlike<S>(rar: Rar, end: RarEnd<S>)
    ensures CutShort(rar.(entries := AsOpened(rar.entries)), end) <==> CutShort(rar, end)
  {
  }
}
