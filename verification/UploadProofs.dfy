/** What an upload leaves on disk, for any chunks of a source file in any order. */
module UploadProofs {
  import opened Wire
  import opened Upload

  // ---- Files as the result of writes -------------------------------------------------------------------

  function Zeros(n: nat): Bytes {
    seq(n, _ => 0)
  }

  /** Seek and write: bytes beyond the end are zero-filled, bytes already there are overwritten. */
  function Overwrite(file: Bytes, w: Write): Bytes {
    var head := if w.offset <= |file| then file[..w.offset] else file + Zeros(w.offset - |file|);
    var end := w.offset + |w.data|;
    head + w.data + if end < |file| then file[end..] else []
  }

  function FileOf(writes: seq<Write>): Bytes {
    if writes == [] then [] else Overwrite(FileOf(writes[..|writes| - 1]), writes[|writes| - 1])
  }

  /** Every write starts exactly where the previous one ended: each byte is written once, in order. */
  predicate Contiguous(writes: seq<Write>) {
    writes == [] ||
    (var init := writes[..|writes| - 1];
     Contiguous(init) && writes[|writes| - 1].offset == |FileOf(init)|)
  }

  lemma AppendWrite(writes: seq<Write>, w: Write)
    requires Contiguous(writes) && w.offset == |FileOf(writes)|
    ensures Contiguous(writes + [w]) && FileOf(writes + [w]) == FileOf(writes) + w.data
  {
    assert (writes + [w])[..|writes|] == writes;
  }

  // ---- One upload over any chunk sequence ---------------------------------------------------------------

  /** A running session, or the end of one, with every write so far. */
  datatype Progress =
    | Active(session: Session, writes: seq<Write>)
    | Finished(writes: seq<Write>)

  function Start(filename: string, totalSize: int): Progress {
    Active(Session(filename, totalSize, 0, map[]), [])
  }

  /** After the session is gone, chunks are refused. */
  function Deliver(mode: Mode, p: Progress, c: Chunk): (Progress, Outcome) {
    match p
    case Finished(_) => (p, Raised(SessionNotFound))
    case Active(s, writes) =>
      var e := Apply(mode, s, c.offset, c.data);
      (if Finishes(e.outcome) then Finished(writes + e.writes) else Active(e.session, writes + e.writes), e.outcome)
  }

  function Run(mode: Mode, filename: string, totalSize: int, cs: seq<Chunk>): Progress {
    if cs == [] then Start(filename, totalSize)
    else Deliver(mode, Run(mode, filename, totalSize, cs[..|cs| - 1]), cs[|cs| - 1]).0
  }

  /** `c` is a slice of `file`. */
  predicate SliceAt(file: Bytes, offset: int, data: Bytes) {
    0 <= offset && offset + |data| <= |file| && data == file[offset..offset + |data|]
  }

  /** The session and the disk agree with the source file. */
  predicate Agrees(s: Session, writes: seq<Write>, file: Bytes) {
    && s.totalSize == |file|
    && s.nextExpected <= |file|
    && (forall k :: k in s.buffered ==> SliceAt(file, k, s.buffered[k]))
    && Contiguous(writes)
    && FileOf(writes) == file[..s.nextExpected]
  }

  predicate Good(p: Progress, file: Bytes) {
    match p
    case Active(s, writes) => Agrees(s, writes, file)
    case Finished(writes) => Contiguous(writes) && FileOf(writes) == file
  }

  lemma WriteAgrees(s: Session, writes: seq<Write>, file: Bytes, data: Bytes)
    requires Agrees(s, writes, file) && SliceAt(file, s.nextExpected, data)
    ensures var (t, w) := WriteChunk(s, data); Agrees(t, writes + [w], file)
  {
    AppendWrite(writes, Write(s.nextExpected, data));
    assert file[..s.nextExpected] + data == file[..s.nextExpected + |data|];
  }

  lemma {:induction false} DrainAgrees(s: Session, writes: seq<Write>, file: Bytes)
    requires Agrees(s, writes, file)
    ensures var (t, more) := ProcessBuffer(s); Agrees(t, writes + more, file)
    decreases |s.buffered|
  {
    if s.nextExpected in s.buffered {
      var cut := s.(buffered := s.buffered - {s.nextExpected as int});
      var (t, w) := WriteChunk(cut, s.buffered[s.nextExpected]);
      WriteAgrees(cut, writes, file, s.buffered[s.nextExpected]);
      DrainAgrees(t, writes + [w], file);
      assert writes + [w] + ProcessBuffer(t).1 == writes + ([w] + ProcessBuffer(t).1);
    } else {
      assert writes + [] == writes;
    }
  }

  lemma SequentialAgrees(mode: Mode, s: Session, writes: seq<Write>, file: Bytes, data: Bytes)
    requires Agrees(s, writes, file) && SliceAt(file, s.nextExpected, data)
    ensures var (t, more) := Sequential(mode, s, data); Agrees(t, writes + more, file)
  {
    var (t, w) := WriteChunk(s, data);
    WriteAgrees(s, writes, file, data);
    DrainAgrees(t, writes + [w], file);
    assert writes + ([w] + []) == writes + [w];
    assert writes + [w] + ProcessBuffer(t).1 == writes + ([w] + ProcessBuffer(t).1);
  }

  lemma DeliverGood(mode: Mode, p: Progress, c: Chunk, file: Bytes)
    requires Good(p, file) && SliceAt(file, c.offset, c.data)
    ensures Good(Deliver(mode, p, c).0, file)
  {
    if p.Active? {
      var s, writes := p.session, p.writes;
      assert writes + [] == writes;
      if c.offset == s.nextExpected {
        SequentialAgrees(mode, s, writes, file, c.data);
      }
      assert file[..|file|] == file;
    }
  }

  predicate AllSlices(cs: seq<Chunk>, file: Bytes) {
    forall i :: 0 <= i < |cs| ==> SliceAt(file, cs[i].offset, cs[i].data)
  }

  /**
   In either mode, whatever slices of the source arrive in whatever order: the writes are contiguous, so
   every byte is written once and in order, what is on disk is the source up to the expected offset, and a
   finished upload is the source.
   */
  lemma {:induction false} UploadIsSafe(mode: Mode, filename: string, file: Bytes, cs: seq<Chunk>)
    requires AllSlices(cs, file)
    ensures Good(Run(mode, filename, |file|, cs), file)
  {
    if cs != [] {
      UploadIsSafe(mode, filename, file, cs[..|cs| - 1]);
      DeliverGood(mode, Run(mode, filename, |file|, cs[..|cs| - 1]), cs[|cs| - 1], file);
    }
  }

  /** An answer that says complete is given only when the disk holds the source. */
  lemma CompleteMeansComplete(mode: Mode, filename: string, file: Bytes, cs: seq<Chunk>, c: Chunk)
    requires AllSlices(cs + [c], file)
    requires var (p, o) := Deliver(mode, Run(mode, filename, |file|, cs), c); o.Replied? && o.complete
    ensures FileOf(Deliver(mode, Run(mode, filename, |file|, cs), c).0.writes) == file
  {
    assert cs == (cs + [c])[..|cs|] && c == (cs + [c])[|cs|];
    assert AllSlices(cs, file);
    UploadIsSafe(mode, filename, file, cs);
    DeliverGood(mode, Run(mode, filename, |file|, cs), c, file);
    assert file[..|file|] == file;
  }

  // ---- Buffering mode: any order of the pieces ------------------------------------------------------------

  /** Where piece `i` starts; the end of the file after the last one. */
  function Mark(ps: seq<Chunk>, file: Bytes, i: nat): nat
    requires i <= |ps|
  {
    if i < |ps| then ps[i].offset else |file|
  }

  predicate Tile(ps: seq<Chunk>, file: Bytes, i: nat)
    requires i < |ps|
  {
    && ps[i].data != []
    && SliceAt(file, ps[i].offset, ps[i].data)
    && ps[i].offset + |ps[i].data| == Mark(ps, file, i + 1)
  }

  /** `ps` cuts `file` into consecutive non-empty pieces. */
  predicate Tiling(ps: seq<Chunk>, file: Bytes) {
    Mark(ps, file, 0) == 0 && forall i :: 0 <= i < |ps| ==> Tile(ps, file, i)
  }

  lemma {:induction false} PiecesTile(file: Bytes, offset: nat, size: int)
    requires offset <= |file| && size != 0
    ensures var ps := Pieces(file, offset, size);
            Mark(ps, file, 0) == offset && forall i :: 0 <= i < |ps| ==> Tile(ps, file, i)
    decreases |file| - offset
  {
    if offset < |file| {
      var end := ReadEnd(file, offset, size);
      PiecesTile(file, end, size);
      var ps, rest := Pieces(file, offset, size), Pieces(file, end, size);
      forall i | 0 <= i < |ps|
        ensures Tile(ps, file, i)
      {
        if i > 0 {
          assert Tile(rest, file, i - 1);
        }
      }
    }
  }

  /** Every piece has the requested size, except that the last one may be shorter. */
  lemma {:induction false} PiecesSized(file: Bytes, offset: nat, size: nat, i: nat)
    requires offset <= |file| && size > 0 && i < |Pieces(file, offset, size)|
    ensures var ps := Pieces(file, offset, size);
            |ps[i].data| <= size && (i < |ps| - 1 ==> |ps[i].data| == size)
    decreases |file| - offset
  {
    var end := ReadEnd(file, offset, size);
    if i > 0 {
      PiecesSized(file, end, size, i - 1);
    } else if end == |file| {
      assert Pieces(file, end, size) == [];
    }
  }

  lemma {:induction false} MarksIncrease(ps: seq<Chunk>, file: Bytes, i: nat, j: nat)
    requires Tiling(ps, file) && i < j <= |ps|
    ensures Mark(ps, file, i) < Mark(ps, file, j)
    decreases j
  {
    assert Tile(ps, file, j - 1);
    if i < j - 1 {
      MarksIncrease(ps, file, i, j - 1);
    }
  }

  /** The session waits for piece `m`: all before it are written, later ones that were `seen` are buffered. */
  ghost predicate Awaits(ps: seq<Chunk>, file: Bytes, s: Session, seen: set<nat>, m: nat) {
    && m <= |ps|
    && s.totalSize == |file| && s.nextExpected == Mark(ps, file, m)
    && (forall i :: 0 <= i < m ==> i in seen)
    && (forall i :: m <= i < |ps| && i in seen ==> ps[i].offset in s.buffered && s.buffered[ps[i].offset] == ps[i].data)
    && (forall k :: k in s.buffered ==> exists i :: m <= i < |ps| && i in seen && ps[i].offset == k)
  }

  /** The piece at the expected offset can only be piece `m`. */
  lemma ExpectedPiece(ps: seq<Chunk>, file: Bytes, m: nat, i: nat)
    requires Tiling(ps, file) && m <= i < |ps| && ps[i].offset == Mark(ps, file, m)
    ensures i == m
  {
    if m < i {
      MarksIncrease(ps, file, m, i);
    }
  }

  lemma {:induction false} DrainAwaits(ps: seq<Chunk>, file: Bytes, s: Session, seen: set<nat>, m: nat) returns (n: nat)
    requires Tiling(ps, file) && Awaits(ps, file, s, seen, m)
    ensures n == |ps| || n !in seen
    ensures Awaits(ps, file, ProcessBuffer(s).0, seen, n)
    decreases |s.buffered|
  {
    if s.nextExpected in s.buffered {
      var i :| m <= i < |ps| && i in seen && ps[i].offset == s.nextExpected;
      ExpectedPiece(ps, file, m, i);
      assert Tile(ps, file, m);
      var t := WriteChunk(s.(buffered := s.buffered - {s.nextExpected as int}), s.buffered[s.nextExpected]).0;
      WrittenAwaits(ps, file, s, seen, m);
      n := DrainAwaits(ps, file, t, seen, m + 1);
    } else {
      n := m;
    }
  }

  lemma WrittenAwaits(ps: seq<Chunk>, file: Bytes, s: Session, seen: set<nat>, m: nat)
    requires Tiling(ps, file) && Awaits(ps, file, s, seen, m) && m < |ps| && m in seen
    ensures var cut := s.(buffered := s.buffered - {s.nextExpected as int});
            Awaits(ps, file, WriteChunk(cut, ps[m].data).0, seen, m + 1)
  {
    assert Tile(ps, file, m);
    forall i | m + 1 <= i < |ps| && i in seen
      ensures ps[i].offset != s.nextExpected
    {
      MarksIncrease(ps, file, m, i);
    }
  }

  /** Piece `j` arrives while piece `m` is awaited. */
  lemma TileDelivered(ps: seq<Chunk>, file: Bytes, s: Session, seen: set<nat>, m: nat, j: nat) returns (n: nat)
    requires Tiling(ps, file) && Awaits(ps, file, s, seen, m) && m < |ps| && m !in seen && j < |ps|
    ensures n <= |ps| && (n < |ps| ==> n !in seen + {j})
    ensures var e := Apply(Bufferable, s, ps[j].offset, ps[j].data);
            && Awaits(ps, file, e.session, seen + {j}, n)
            && (Finishes(e.outcome) <==> n == |ps|)
  {
    assert Tile(ps, file, j);
    if j < m {
      assert seen + {j} == seen;
      MarksIncrease(ps, file, j, m);
      if j + 1 < m {
        MarksIncrease(ps, file, j + 1, m);
      }
      n := m;
    } else {
      if j == m {
        n := NextDelivered(ps, file, s, seen, m);
      } else {
        MarksIncrease(ps, file, m, j);
        var t := s.(buffered := s.buffered[ps[j].offset as int := ps[j].data]);
        BufferedAwaits(ps, file, s, seen, m, j);
        n := m;
      }
    }
    if n < |ps| {
      MarksIncrease(ps, file, n, |ps|);
    }
  }

  lemma BufferedAwaits(ps: seq<Chunk>, file: Bytes, s: Session, seen: set<nat>, m: nat, j: nat)
    requires Tiling(ps, file) && Awaits(ps, file, s, seen, m) && m < j < |ps|
    ensures Awaits(ps, file, s.(buffered := s.buffered[ps[j].offset as int := ps[j].data]), seen + {j}, m)
  {
    var t := s.(buffered := s.buffered[ps[j].offset as int := ps[j].data]);
    forall i | m <= i < |ps| && i in seen + {j}
      ensures ps[i].offset in t.buffered && t.buffered[ps[i].offset] == ps[i].data
    {
      if i < j {
        MarksIncrease(ps, file, i, j);
      } else if j < i {
        MarksIncrease(ps, file, j, i);
      }
    }
    forall k | k in t.buffered
      ensures exists i :: m <= i < |ps| && i in seen + {j} && ps[i].offset == k
    {
      if k == ps[j].offset {
        assert m <= j < |ps| && j in seen + {j} && ps[j].offset == k;
      } else {
        var i :| m <= i < |ps| && i in seen && ps[i].offset == k;
        assert i in seen + {j};
      }
    }
  }

  lemma NextDelivered(ps: seq<Chunk>, file: Bytes, s: Session, seen: set<nat>, m: nat) returns (n: nat)
    requires Tiling(ps, file) && Awaits(ps, file, s, seen, m) && m < |ps| && m !in seen
    ensures n <= |ps| && (n < |ps| ==> n !in seen + {m})
    ensures Awaits(ps, file, Sequential(Bufferable, s, ps[m].data).0, seen + {m}, n)
  {
    var u := s.(buffered := s.buffered[s.nextExpected as int := ps[m].data]);
    AwaitsNow(ps, file, s, seen, m);
    WrittenAwaits(ps, file, u, seen + {m}, m);
    NotYetBuffered(ps, file, s, seen, m);
    assert u.(buffered := u.buffered - {s.nextExpected as int}) == s;
    n := DrainAwaits(ps, file, WriteChunk(s, ps[m].data).0, seen + {m}, m + 1);
  }

  lemma NotYetBuffered(ps: seq<Chunk>, file: Bytes, s: Session, seen: set<nat>, m: nat)
    requires Tiling(ps, file) && Awaits(ps, file, s, seen, m) && m < |ps| && m !in seen
    ensures s.nextExpected !in s.buffered
  {
    forall i | m <= i < |ps| && i in seen
      ensures ps[i].offset != s.nextExpected
    {
      MarksIncrease(ps, file, m, i);
    }
  }

  lemma AwaitsNow(ps: seq<Chunk>, file: Bytes, s: Session, seen: set<nat>, m: nat)
    requires Tiling(ps, file) && Awaits(ps, file, s, seen, m) && m < |ps|
    ensures Awaits(ps, file, s.(buffered := s.buffered[s.nextExpected as int := ps[m].data]), seen + {m}, m)
  {
    var t := s.(buffered := s.buffered[s.nextExpected as int := ps[m].data]);
    forall i | m <= i < |ps| && i in seen + {m}
      ensures ps[i].offset in t.buffered && t.buffered[ps[i].offset] == ps[i].data
    {
      if m < i {
        MarksIncrease(ps, file, m, i);
      }
    }
    forall k | k in t.buffered
      ensures exists i :: m <= i < |ps| && i in seen + {m} && ps[i].offset == k
    {
      if k == s.nextExpected {
        assert m <= m < |ps| && m in seen + {m} && ps[m].offset == k;
      } else {
        var i :| m <= i < |ps| && i in seen && ps[i].offset == k;
        assert i in seen + {m};
      }
    }
  }

  function Seen(ps: seq<Chunk>, cs: seq<Chunk>): set<nat> {
    set i | 0 <= i < |ps| && ps[i] in cs
  }

  /** Active while a piece is missing, and then waiting for the first one missing; finished otherwise. */
  ghost predicate Tracks(p: Progress, ps: seq<Chunk>, file: Bytes, seen: set<nat>) {
    match p
    case Active(s, _) => exists m :: 0 <= m < |ps| && m !in seen && Awaits(ps, file, s, seen, m)
    case Finished(_) => forall i :: 0 <= i < |ps| ==> i in seen
  }

  lemma {:induction false} RunTracks(filename: string, file: Bytes, ps: seq<Chunk>, cs: seq<Chunk>)
    requires Tiling(ps, file) && ps != [] && forall c :: c in cs ==> c in ps
    ensures Tracks(Run(Bufferable, filename, |file|, cs), ps, file, Seen(ps, cs))
  {
    if cs == [] {
      assert Awaits(ps, file, Session(filename, |file|, 0, map[]), Seen(ps, []), 0);
    } else {
      var init, c := cs[..|cs| - 1], cs[|cs| - 1];
      RunTracks(filename, file, ps, init);
      var p := Run(Bufferable, filename, |file|, init);
      var seen := Seen(ps, init);
      assert c in cs && c in ps;
      var j :| 0 <= j < |ps| && ps[j] == c;
      SeenSnoc(ps, file, init, j);
      assert init + [c] == cs;
      if p.Active? {
        var m :| 0 <= m < |ps| && m !in seen && Awaits(ps, file, p.session, seen, m);
        var n := TileDelivered(ps, file, p.session, seen, m, j);
      }
    }
  }

  lemma SeenSnoc(ps: seq<Chunk>, file: Bytes, cs: seq<Chunk>, j: nat)
    requires Tiling(ps, file) && j < |ps|
    ensures Seen(ps, cs + [ps[j]]) == Seen(ps, cs) + {j}
  {
    forall i | 0 <= i < |ps| && ps[i] == ps[j]
      ensures i == j
    {
      if i < j {
        MarksIncrease(ps, file, i, j);
      } else if j < i {
        MarksIncrease(ps, file, j, i);
      }
    }
  }

  lemma PiecesAreSlices(file: Bytes, size: int, cs: seq<Chunk>)
    requires size != 0 && forall c :: c in cs ==> c in Pieces(file, 0, size)
    ensures AllSlices(cs, file)
  {
    var ps := Pieces(file, 0, size);
    PiecesTile(file, 0, size);
    forall i | 0 <= i < |cs|
      ensures SliceAt(file, cs[i].offset, cs[i].data)
    {
      assert cs[i] in cs && cs[i] in ps;
      var j :| 0 <= j < |ps| && ps[j] == cs[i];
      assert Tile(ps, file, j);
    }
  }

  /**
   Buffering mode accepts the pieces of a file in any order and with any repetition: the upload is finished
   exactly when every piece has arrived, provided the file and the size are not empty, and then the disk holds
   the file.
   */
  lemma FinishedIffAllArrived(filename: string, file: Bytes, size: int, cs: seq<Chunk>)
    requires forall c :: c in cs ==> c in Pieces(file, 0, size)
    ensures var p := Run(Bufferable, filename, |file|, cs);
            && (p.Finished? <==> file != [] && size != 0 && forall c :: c in Pieces(file, 0, size) ==> c in cs)
            && (p.Finished? ==> FileOf(p.writes) == file)
  {
    var ps := Pieces(file, 0, size);
    assert cs == [] || cs[0] in ps;
    if ps != [] {
      PiecesTile(file, 0, size);
      RunTracks(filename, file, ps, cs);
      PiecesAreSlices(file, size, cs);
      UploadIsSafe(Bufferable, filename, file, cs);
      TracksDecides(Run(Bufferable, filename, |file|, cs), file, ps, cs);
    }
  }

  lemma TracksDecides(p: Progress, file: Bytes, ps: seq<Chunk>, cs: seq<Chunk>)
    requires Tracks(p, ps, file, Seen(ps, cs))
    ensures p.Finished? <==> forall c :: c in ps ==> c in cs
  {
    if p.Active? {
      var m :| 0 <= m < |ps| && m !in Seen(ps, cs) && Awaits(ps, file, p.session, Seen(ps, cs), m);
      assert ps[m] in ps && ps[m] !in cs;
    } else {
      forall i | 0 <= i < |ps|
        ensures ps[i] in cs
      {
        assert i in Seen(ps, cs);
      }
    }
  }

  // ---- Strict mode: in order only ------------------------------------------------------------------------

  /** How many pieces, from the first on, occur one after the other in `cs`. */
  function Matched(ps: seq<Chunk>, cs: seq<Chunk>): (n: nat)
    ensures n <= |ps|
  {
    if cs == [] then 0
    else
      var n := Matched(ps, cs[..|cs| - 1]);
      if n < |ps| && ps[n] == cs[|cs| - 1] then n + 1 else n
  }

  predicate StrictlyTracks(p: Progress, ps: seq<Chunk>, file: Bytes, n: nat)
    requires n <= |ps|
  {
    match p
    case Active(s, _) => n < |ps| && s.nextExpected == Mark(ps, file, n) && s.totalSize == |file|
    case Finished(_) => n == |ps|
  }

  lemma StrictDeliver(ps: seq<Chunk>, file: Bytes, p: Progress, n: nat, j: nat)
    requires Tiling(ps, file) && n <= |ps| && j < |ps| && StrictlyTracks(p, ps, file, n)
    ensures StrictlyTracks(Deliver(Strict, p, ps[j]).0, ps, file, if n < |ps| && ps[n] == ps[j] then n + 1 else n)
  {
    assert Tile(ps, file, j);
    if p.Active? {
      if j < n {
        MarksIncrease(ps, file, j, n);
      } else if n < j {
        MarksIncrease(ps, file, n, j);
      }
      MarksIncrease(ps, file, n, |ps|);
      if j == n && n + 1 < |ps| {
        MarksIncrease(ps, file, n + 1, |ps|);
      }
    }
  }

  lemma {:induction false} RunStrictlyTracks(filename: string, file: Bytes, ps: seq<Chunk>, cs: seq<Chunk>)
    requires Tiling(ps, file) && ps != [] && forall c :: c in cs ==> c in ps
    ensures StrictlyTracks(Run(Strict, filename, |file|, cs), ps, file, Matched(ps, cs))
  {
    if cs != [] {
      var init, c := cs[..|cs| - 1], cs[|cs| - 1];
      RunStrictlyTracks(filename, file, ps, init);
      assert c in cs && c in ps;
      var j :| 0 <= j < |ps| && ps[j] == c;
      StrictDeliver(ps, file, Run(Strict, filename, |file|, init), Matched(ps, init), j);
    }
  }

  /** Increasing positions in `cs` at which the pieces `ps` stand, one after the other. */
  predicate PicksOut(ps: seq<Chunk>, cs: seq<Chunk>, at: seq<nat>) {
    && |at| == |ps|
    && (forall i :: 0 <= i < |at| ==> at[i] < |cs| && cs[at[i]] == ps[i])
    && (forall i, j :: 0 <= i < j < |at| ==> at[i] < at[j])
  }

  /** Some pieces stand in `cs` in order: no more of them than the scan has matched. */
  lemma {:induction false} PickedIsMatched(ps: seq<Chunk>, cs: seq<Chunk>, at: seq<nat>, n: nat)
    requires n <= |ps| && PicksOut(ps[..n], cs, at)
    ensures n <= Matched(ps, cs)
    decreases |cs|
  {
    if n > 0 {
      assert at[n - 1] < |cs|;
      var init := cs[..|cs| - 1];
      if at[n - 1] == |cs| - 1 {
        assert PicksOut(ps[..n - 1], init, at[..n - 1]);
        PickedIsMatched(ps, init, at[..n - 1], n - 1);
        assert ps[..n][n - 1] == cs[|cs| - 1];
      } else {
        assert PicksOut(ps[..n], init, at);
        PickedIsMatched(ps, init, at, n);
      }
    }
  }

  /** All that the scan has matched stand in `cs` in order. */
  lemma {:induction false} MatchedIsPicked(ps: seq<Chunk>, cs: seq<Chunk>) returns (at: seq<nat>)
    ensures PicksOut(ps[..Matched(ps, cs)], cs, at)
  {
    if cs == [] {
      at := [];
    } else {
      var init := cs[..|cs| - 1];
      at := MatchedIsPicked(ps, init);
      if Matched(ps, init) < Matched(ps, cs) {
        at := at + [|cs| - 1];
      }
    }
  }

  /**
   Strict mode finishes exactly when the pieces of the file stand in order somewhere among the arrivals, one
   after the other, provided the file and the size are not empty; and then the disk holds the file.
   */
  lemma StrictFinishedIffInOrder(filename: string, file: Bytes, size: int, cs: seq<Chunk>)
    requires forall c :: c in cs ==> c in Pieces(file, 0, size)
    ensures var p := Run(Strict, filename, |file|, cs);
            && (p.Finished? <==> file != [] && size != 0 && exists at :: PicksOut(Pieces(file, 0, size), cs, at))
            && (p.Finished? ==> FileOf(p.writes) == file)
  {
    var ps := Pieces(file, 0, size);
    assert cs == [] || cs[0] in ps;
    if ps != [] {
      PiecesTile(file, 0, size);
      RunStrictlyTracks(filename, file, ps, cs);
      PiecesAreSlices(file, size, cs);
      UploadIsSafe(Strict, filename, file, cs);
      assert ps[..|ps|] == ps;
      var at := MatchedIsPicked(ps, cs);
      if at' :| PicksOut(ps, cs, at') {
        PickedIsMatched(ps, cs, at', |ps|);
      }
    }
  }
}
