/** What each answer to a chunk says about the disk, for any chunks whatsoever. */
module UploadAnswers {
  import opened Wire
  import opened Upload
  import opened UploadProofs

  /** The disk holds as many bytes as the session expects to have, written one after the other. */
  predicate InStep(s: Session, writes: seq<Write>) {
    Contiguous(writes) && |FileOf(writes)| == s.nextExpected
  }

  lemma WriteInStep(s: Session, writes: seq<Write>, data: Bytes)
    requires InStep(s, writes)
    ensures var (t, w) := WriteChunk(s, data);
            InStep(t, writes + [w]) && FileOf(writes + [w]) == FileOf(writes) + data
  {
    AppendWrite(writes, Write(s.nextExpected, data));
  }

  lemma {:induction false} DrainInStep(s: Session, writes: seq<Write>)
    requires InStep(s, writes)
    ensures var (t, more) := ProcessBuffer(s);
            InStep(t, writes + more) && FileOf(writes) <= FileOf(writes + more) && t.totalSize == s.totalSize
    decreases |s.buffered|
  {
    if s.nextExpected in s.buffered {
      var cut := s.(buffered := s.buffered - {s.nextExpected as int});
      var (t, w) := WriteChunk(cut, s.buffered[s.nextExpected]);
      WriteInStep(cut, writes, s.buffered[s.nextExpected]);
      DrainInStep(t, writes + [w]);
      assert writes + [w] + ProcessBuffer(t).1 == writes + ([w] + ProcessBuffer(t).1);
    } else {
      assert writes + [] == writes;
    }
  }

  lemma SequentialInStep(mode: Mode, s: Session, writes: seq<Write>, data: Bytes)
    requires InStep(s, writes)
    ensures var (t, more) := Sequential(mode, s, data);
            && InStep(t, writes + more) && t.totalSize == s.totalSize
            && FileOf(writes) + data <= FileOf(writes + more)
            && (mode == Strict ==> FileOf(writes + more) == FileOf(writes) + data)
  {
    var (t, w) := WriteChunk(s, data);
    WriteInStep(s, writes, data);
    DrainInStep(t, writes + [w]);
    assert writes + ([w] + []) == writes + [w];
    assert writes + [w] + ProcessBuffer(t).1 == writes + ([w] + ProcessBuffer(t).1);
  }

  /** The session as it is after any chunks. */
  predicate Running(p: Progress, totalSize: int) {
    match p
    case Active(s, writes) => InStep(s, writes) && s.totalSize == totalSize
    case Finished(writes) => Contiguous(writes) && |FileOf(writes)| == totalSize
  }

  /** The answer if nothing else is wrong. */
  function Announced(written: nat, totalSize: int): Outcome {
    if written == totalSize then Replied(true, UploadComplete) else Replied(false, ChunkApplied)
  }

  /** The answer to a chunk that starts before the end of the disk; nothing changes. */
  predicate SaysEarly(written: nat, c: Chunk, before: Progress, after: Progress, o: Outcome, totalSize: int) {
    && after == before
    && o == if c.offset + |c.data| <= written then Replied(written == totalSize, DuplicateIgnored)
            else Raised(Overlapping)
  }

  /** The answer to a chunk that starts at the end of the disk: it is written. */
  predicate SaysNext(mode: Mode, disk: Bytes, c: Chunk, after: Progress, o: Outcome, totalSize: int) {
    var now := FileOf(after.writes);
    && disk + c.data <= now && (mode == Strict ==> now == disk + c.data)
    && o == Announced(|now|, totalSize) && (after.Finished? <==> |now| == totalSize)
  }

  /** The answer to a chunk that starts beyond the end of the disk: refused, or held back. */
  predicate SaysBeyond(mode: Mode, written: nat, c: Chunk, before: Progress, after: Progress, o: Outcome,
    totalSize: int) {
    if mode == Strict then after == before && o == Raised(OutOfOrder)
    else
      && after.writes == before.writes && o == Announced(written, totalSize)
      && if written == totalSize then after.Finished? else HeldBack(after, c)
  }

  /** A chunk is held back by an unfinished session. */
  predicate HeldBack(p: Progress, c: Chunk) {
    p.Active? && c.offset in p.session.buffered && p.session.buffered[c.offset] == c.data
  }

  /** What the answer `o` to chunk `c` says about the disk before and afterwards. */
  predicate Says(mode: Mode, disk: Bytes, c: Chunk, before: Progress, after: Progress, o: Outcome, totalSize: int) {
    if c.offset < |disk| then SaysEarly(|disk|, c, before, after, o, totalSize)
    else if c.offset == |disk| then SaysNext(mode, disk, c, after, o, totalSize)
    else SaysBeyond(mode, |disk|, c, before, after, o, totalSize)
  }

  lemma EarlySays(mode: Mode, p: Progress, c: Chunk, totalSize: int)
    requires p.Active? && Running(p, totalSize) && c.offset < p.session.nextExpected
    ensures var (q, o) := Deliver(mode, p, c); SaysEarly(p.session.nextExpected, c, p, q, o, totalSize)
  {
    assert p.writes + [] == p.writes;
  }

  lemma NextSays(mode: Mode, p: Progress, c: Chunk, totalSize: int)
    requires p.Active? && Running(p, totalSize) && c.offset == p.session.nextExpected
    ensures var (q, o) := Deliver(mode, p, c);
            Running(q, totalSize) && SaysNext(mode, FileOf(p.writes), c, q, o, totalSize)
  {
    SequentialInStep(mode, p.session, p.writes, c.data);
  }

  lemma BeyondSays(mode: Mode, p: Progress, c: Chunk, totalSize: int)
    requires p.Active? && Running(p, totalSize) && c.offset > p.session.nextExpected
    ensures var (q, o) := Deliver(mode, p, c);
            Running(q, totalSize) && SaysBeyond(mode, p.session.nextExpected, c, p, q, o, totalSize)
  {
    assert p.writes + [] == p.writes;
  }

  lemma DeliverSays(mode: Mode, p: Progress, c: Chunk, totalSize: int)
    requires p.Active? && Running(p, totalSize)
    ensures var (q, o) := Deliver(mode, p, c);
            Running(q, totalSize) && Says(mode, FileOf(p.writes), c, p, q, o, totalSize)
  {
    if c.offset < p.session.nextExpected {
      EarlySays(mode, p, c, totalSize);
    } else if c.offset == p.session.nextExpected {
      NextSays(mode, p, c, totalSize);
    } else {
      BeyondSays(mode, p, c, totalSize);
    }
  }

  lemma {:induction false} RunRunning(mode: Mode, filename: string, totalSize: int, cs: seq<Chunk>)
    ensures Running(Run(mode, filename, totalSize, cs), totalSize)
  {
    if cs != [] {
      var init := cs[..|cs| - 1];
      RunRunning(mode, filename, totalSize, init);
      var p := Run(mode, filename, totalSize, init);
      if p.Active? {
        DeliverSays(mode, p, cs[|cs| - 1], totalSize);
      }
    }
  }

  /**
   In every run, for any chunks: a chunk that starts before the end of the disk is a duplicate if it ends within it
   and an overlap if not, and changes nothing; one that starts at the end is on the disk afterwards; one that starts
   beyond it is refused in strict mode, without any change, and held back in the other. Completion is announced
   exactly when the disk has the declared size. Once it has been, every chunk is refused.
   */
  lemma AnswersAreExact(mode: Mode, filename: string, totalSize: int, cs: seq<Chunk>, c: Chunk)
    ensures var p := Run(mode, filename, totalSize, cs);
            var (q, o) := Deliver(mode, p, c);
            if p.Active? then Says(mode, FileOf(p.writes), c, p, q, o, totalSize)
            else q == p && o == Raised(SessionNotFound)
  {
    RunRunning(mode, filename, totalSize, cs);
    var p := Run(mode, filename, totalSize, cs);
    if p.Active? {
      DeliverSays(mode, p, c, totalSize);
    }
  }

  /** A chunk is on the disk. */
  predicate OnDisk(writes: seq<Write>, c: Chunk) {
    c.offset + |c.data| <= |FileOf(writes)| && FileOf(writes)[c.offset..c.offset + |c.data|] == c.data
  }

  /**
   For slices of a file, an answer that is not an error means that the chunk is safe: its bytes are on the disk, or
   it is held back in buffering mode.
   */
  lemma AnsweredMeansSafe(mode: Mode, filename: string, file: Bytes, cs: seq<Chunk>, c: Chunk)
    requires AllSlices(cs + [c], file)
    requires Deliver(mode, Run(mode, filename, |file|, cs), c).1.Replied?
    ensures var q := Deliver(mode, Run(mode, filename, |file|, cs), c).0;
            OnDisk(q.writes, c) || (mode == Bufferable && HeldBack(q, c))
  {
    assert cs == (cs + [c])[..|cs|] && c == (cs + [c])[|cs|];
    assert AllSlices(cs, file) && SliceAt(file, c.offset, c.data);
    var p := Run(mode, filename, |file|, cs);
    UploadIsSafe(mode, filename, file, cs);
    DeliverGood(mode, p, c, file);
    RunRunning(mode, filename, |file|, cs);
    DeliverSays(mode, p, c, |file|);
    var (q, o) := Deliver(mode, p, c);
    SafeAfter(mode, p, q, o, c, file);
  }

  lemma SafeAfter(mode: Mode, p: Progress, q: Progress, o: Outcome, c: Chunk, file: Bytes)
    requires p.Active? && Good(p, file) && Good(q, file) && SliceAt(file, c.offset, c.data) && o.Replied?
    requires Says(mode, FileOf(p.writes), c, p, q, o, |file|)
    ensures OnDisk(q.writes, c) || (mode == Bufferable && HeldBack(q, c))
  {
    assert file[..|file|] == file;
    var n := |FileOf(q.writes)|;
    assert FileOf(q.writes) == file[..n];
    if c.offset + |c.data| <= n {
      SliceOnDisk(file, n, c);
    }
  }

  lemma SliceOnDisk(file: Bytes, n: nat, c: Chunk)
    requires SliceAt(file, c.offset, c.data) && c.offset + |c.data| <= n <= |file|
    ensures file[..n][c.offset..c.offset + |c.data|] == c.data
  {
  }
}
