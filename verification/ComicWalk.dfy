/** The one-pass walk each comic container offers: ZIP and 7z look entries up,
    RAR reads the archive through and, when it is solid, has to decode what it
    steps over.

    A walk hands each wanted entry to a sink. The sink is a closure; here it is
    a function of the state `S` it closes over. */
module ComicWalk {
  import opened Common

  /** How an entry's bytes end: cleanly, in a decode failure, or in one that
      means a password was wanted. */
  datatype ReadEnd = Eof | Broken | Locked

  /** What a sink reads from. */
  datatype Reader = Reader(data: Bytes, end: ReadEnd)

  datatype Opening = Opens | WontOpen | NeedsPassword

  datatype ArchiveEntry = ArchiveEntry(name: string, opening: Opening, data: Bytes, end: ReadEnd) {
    function Contents(): Reader {
      Reader(data, end)
    }
  }

  datatype WalkError = EncryptedArchive | BrokenArchive | SinkFailed(why: string)

  /** A sink goes on, having read `consumed` bytes of the entry, or ends the walk. */
  datatype SinkOut<S> = GoOn(s: S, consumed: nat) | Stop(s: S, err: WalkError)

  type Sink<!S> = (S, string, Reader) -> SinkOut<S>

  /** A sink cannot read more than there is. */
  ghost predicate Honest<S(!new)>(sink: Sink<S>) {
    forall s, name, r :: sink(s, name, r).GoOn? ==> sink(s, name, r).consumed <= |r.data|
  }

  // ------------------------------------------------------------------
  // ZIP
  // ------------------------------------------------------------------

  ghost function WalkZip<S>(es: seq<ArchiveEntry>, want: set<string>, done: set<string>, sink: Sink<S>, s: S): (S, Option<WalkError>)
  {
    if es == [] then (s, None)
    else if es[0].name !in want || es[0].name in done || es[0].opening != Opens then
      WalkZip(es[1..], want, done, sink, s)
    else
      match sink(s, es[0].name, es[0].Contents())
      case Stop(s', err) => (s', Some(err))
      case GoOn(s', _) => WalkZip(es[1..], want, done + {es[0].name}, sink, s')
  }

  method StreamZip<S>(es: seq<ArchiveEntry>, want: set<string>, sink: Sink<S>, start: S) returns (s: S, err: Option<WalkError>)
    ensures (s, err) == WalkZip(es, want, {}, sink, start)
  {
    s, err := start, None;
    var done: set<string> := {};
    var i := 0;
    assert es[i..] == es;
    while i < |es|
      invariant 0 <= i <= |es|
      invariant WalkZip(es, want, {}, sink, start) == WalkZip(es[i..], want, done, sink, s)
    {
      var e := es[i];
      assert es[i..][1..] == es[i + 1..];
      i := i + 1;
      if e.name !in want || e.name in done {
        continue;
      }
      if e.opening != Opens {
        continue;
      }
      match sink(s, e.name, e.Contents()) {
        case Stop(s', serr) => return s', Some(serr);
        case GoOn(s', _) => s := s';
      }
      done := done + {e.name};
    }
    return s, None;
  }

  // ------------------------------------------------------------------
  // 7z
  // ------------------------------------------------------------------

  /** Names written on Windows, with slashes. */
  function SlashName(name: string): (r: string)
    ensures |r| == |name|
    ensures forall i :: 0 <= i < |name| ==> r[i] == if name[i] == '\\' then '/' else name[i]
  {
    seq(|name|, i requires 0 <= i < |name| => if name[i] == '\\' then '/' else name[i])
  }

  ghost function Walk7z<S>(es: seq<ArchiveEntry>, want: set<string>, done: set<string>, sink: Sink<S>, s: S): (S, Option<WalkError>)
  {
    if es == [] then (s, None)
    else
      var name := SlashName(es[0].name);
      if name !in want || name in done || es[0].opening == WontOpen then Walk7z(es[1..], want, done, sink, s)
      else if es[0].opening == NeedsPassword then (s, Some(EncryptedArchive))
      else
        match sink(s, name, es[0].Contents())
        case Stop(s', err) => (s', Some(err))
        case GoOn(s', _) => Walk7z(es[1..], want, done + {name}, sink, s')
  }

  method Stream7z<S>(es: seq<ArchiveEntry>, want: set<string>, sink: Sink<S>, start: S) returns (s: S, err: Option<WalkError>)
    ensures (s, err) == Walk7z(es, want, {}, sink, start)
  {
    s, err := start, None;
    var done: set<string> := {};
    var i := 0;
    assert es[i..] == es;
    while i < |es|
      invariant 0 <= i <= |es|
      invariant Walk7z(es, want, {}, sink, start) == Walk7z(es[i..], want, done, sink, s)
    {
      var e := es[i];
      var name := SlashName(e.name);
      assert es[i..][1..] == es[i + 1..];
      i := i + 1;
      if name !in want || name in done {
        continue;
      }
      if e.opening == NeedsPassword {
        return s, Some(EncryptedArchive);
      }
      if e.opening == WontOpen {
        continue;
      }
      match sink(s, name, e.Contents()) {
        case Stop(s', serr) => return s', Some(serr);
        case GoOn(s', _) => s := s';
      }
      done := done + {name};
    }
    return s, None;
  }

  // ------------------------------------------------------------------
  // RAR
  // ------------------------------------------------------------------

  /** A RAR archive as its sequential reader sees it. In a solid one an entry
      decodes to its own bytes only if every entry before it was decoded in
      full; otherwise the decoder yields `garbage`. */
  datatype Rar = Rar(entries: seq<ArchiveEntry>, solid: bool, tail: ReadEnd, garbage: nat -> Reader)

  const SolidDrainCap := 512 * 0x10_0000

  /** What reading entry `i` yields. */
  function Decoded(rar: Rar, i: nat, intact: bool): Reader
    requires i < |rar.entries|
  {
    if rar.solid && !intact then rar.garbage(i) else rar.entries[i].Contents()
  }

  function Min(a: int, b: int): int {
    if a < b then a else b
  }

  /** Decoding what is left of an entry, as far as the budget allows: how many
      bytes that took, and whether the walk has to give up. */
  function Drain(r: Reader, consumed: nat, drained: int): (int, bool) {
    var rest, budget := |r.data| - consumed, SolidDrainCap - drained;
    var n := Min(rest, budget);
    (n, (rest < budget && r.end != Eof) || drained + n >= SolidDrainCap)
  }

  /** How a walk over a RAR ended, how many entries it reached and how many
      bytes it decoded only to step over them. */
  datatype RarEnd<S> = RarEnd(s: S, err: Option<WalkError>, reached: nat, drained: int)

  ghost function WalkRar<S>(rar: Rar, i: nat, intact: bool, drained: int, want: set<string>, done: set<string>, sink: Sink<S>, s: S): RarEnd<S>
    requires i <= |rar.entries|
    decreases |rar.entries| - i
  {
    if want <= done then RarEnd(s, None, i, drained)
    else if i == |rar.entries| then
      RarEnd(s, if rar.tail == Eof then None else if rar.tail == Locked then Some(EncryptedArchive) else Some(BrokenArchive), i, drained)
    else
      var name := rar.entries[i].name;
      var r := Decoded(rar, i, intact);
      var out := if name in want && name !in done then sink(s, name, r) else GoOn(s, 0);
      match out
      case Stop(s', err) => RarEnd(s', Some(err), i + 1, drained)
      case GoOn(s', consumed) =>
        var done' := if name in want && name !in done then done + {name} else done;
        if !rar.solid || want <= done' then WalkRar(rar, i + 1, false, drained, want, done', sink, s')
        else
          var (n, gaveUp) := Drain(r, consumed, drained);
          if gaveUp then RarEnd(s', None, i + 1, drained + n)
          else WalkRar(rar, i + 1, intact && consumed + n == |r.data| && r.end == Eof, drained + n, want, done', sink, s')
  }

  method StreamRar<S(!new)>(rar: Rar, want: set<string>, sink: Sink<S>, start: S)
    returns (s: S, err: Option<WalkError>, ghost end: RarEnd<S>)
    ensures end == WalkRar(rar, 0, true, 0, want, {}, sink, start)
    ensures s == end.s && err == end.err
  {
    hide Drain, Decoded;
    end := WalkRar(rar, 0, true, 0, want, {}, sink, start);
    s, err := start, None;
    var done: set<string> := {};
    var remaining := |want|;
    var drained, i, intact := 0, 0, true;
    while remaining > 0
      invariant 0 <= i <= |rar.entries| && done <= want && remaining == |want - done|
      invariant end == WalkRar(rar, i, intact, drained, want, done, sink, s)
      decreases |rar.entries| - i
    {
      NothingLeft(want, done);
      if i == |rar.entries| {
        err := match rar.tail case Eof => None case Locked => Some(EncryptedArchive) case Broken => Some(BrokenArchive);
        return;
      }
      var name, r, used := rar.entries[i].name, Decoded(rar, i, intact), 0;
      if name in want && name !in done {
        match sink(s, name, r) {
          case Stop(s', serr) => return s', Some(serr), end;
          case GoOn(s', consumed) => s, used := s', consumed;
        }
        assert want - (done + {name}) == want - done - {name};
        done := done + {name};
        remaining := remaining - 1;
      }
      NothingLeft(want, done);
      i := i + 1;
      if rar.solid && remaining > 0 {
        var (n, gaveUp) := Drain(r, used, drained);
        drained := drained + n;
        if gaveUp {
          return;
        }
        intact := intact && used + n == |r.data| && r.end == Eof;
      } else {
        intact := false;
      }
    }
    NothingLeft(want, done);
  }

  lemma NothingLeft(want: set<string>, done: set<string>)
    ensures |want - done| == 0 <==> want <= done
  {
    if |want - done| == 0 {
      forall x | x in want ensures x in done {
        assert x !in want - done;
      }
    } else {
      var x :| x in want - done;
      assert x in want && x !in done;
    }
  }
}
