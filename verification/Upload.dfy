/** Upload sessions: applying file chunks in order, strictly or with buffering. */
module Upload {
  import opened Wire

  datatype Mode = Strict | Bufferable

  datatype Session = Session(filename: string, totalSize: int, nextExpected: nat, buffered: map<int, Bytes>)

  /** A call to the file writer. */
  datatype Write = Write(offset: nat, data: Bytes)

  datatype Note = DuplicateIgnored | UploadComplete | ChunkApplied

  datatype Error = SessionNotFound | Overlapping | OutOfOrder

  datatype Outcome = Replied(complete: bool, note: Note) | Raised(error: Error)

  /** What applying a chunk does: the session afterwards, the writes issued, and the answer. */
  datatype Effect = Effect(session: Session, writes: seq<Write>, outcome: Outcome)

  function WriteChunk(s: Session, data: Bytes): (Session, Write) {
    (s.(nextExpected := s.nextExpected + |data|), Write(s.nextExpected, data))
  }

  /** Write buffered chunks for as long as the next one is there. */
  function ProcessBuffer(s: Session): (Session, seq<Write>)
    decreases |s.buffered|
  {
    if s.nextExpected in s.buffered then
      var (t, w) := WriteChunk(s.(buffered := s.buffered - {s.nextExpected as int}), s.buffered[s.nextExpected]);
      var (u, rest) := ProcessBuffer(t);
      (u, [w] + rest)
    else (s, [])
  }

  /** The chunk that continues the file. */
  function Sequential(mode: Mode, s: Session, data: Bytes): (Session, seq<Write>) {
    var (t, w) := WriteChunk(s, data);
    var (u, rest) := if mode == Bufferable then ProcessBuffer(t) else (t, []);
    (u, [w] + rest)
  }

  function Concluded(s: Session, writes: seq<Write>): Effect {
    Effect(s, writes, if s.nextExpected == s.totalSize then Replied(true, UploadComplete)
        else Replied(false, ChunkApplied))
  }

  function Apply(mode: Mode, s: Session, offset: int, data: Bytes): Effect {
    if offset < s.nextExpected then
      if offset + |data| <= s.nextExpected
      then Effect(s, [], Replied(s.nextExpected == s.totalSize, DuplicateIgnored))
      else Effect(s, [], Raised(Overlapping))
    else if offset == s.nextExpected then
      var (t, writes) := Sequential(mode, s, data);
      Concluded(t, writes)
    else if mode == Strict then Effect(s, [], Raised(OutOfOrder))
    else Concluded(s.(buffered := s.buffered[offset := data]), [])
  }

  /** The session is over once completion has been announced. */
  predicate Finishes(o: Outcome) {
    o.Replied? && o.note == UploadComplete
  }

  class UploadSessionManager {
    var sessions: map<string, Session>
    const uploadMode: Mode

    constructor (mode: Mode)
      ensures sessions == map[] && uploadMode == mode
    {
      sessions, uploadMode := map[], mode;
    }

    method CreateSession(uploadId: string, filename: string, totalSize: int)
      modifies this
      ensures sessions == old(sessions)[uploadId := Session(filename, totalSize, 0, map[])]
    {
      sessions := sessions[uploadId := Session(filename, totalSize, 0, map[])];
    }

    method DrainBuffer(session: Session) returns (s: Session, writes: seq<Write>)
      ensures (s, writes) == ProcessBuffer(session)
    {
      s, writes := session, [];
      assert writes + ProcessBuffer(s).1 == ProcessBuffer(s).1;
      while s.nextExpected in s.buffered
        invariant ProcessBuffer(s).0 == ProcessBuffer(session).0
        invariant writes + ProcessBuffer(s).1 == ProcessBuffer(session).1
        decreases |s.buffered|
      {
        var chunk := s.buffered[s.nextExpected];
        ghost var before := writes;
        var w := Write(s.nextExpected, chunk);
        writes := writes + [w];
        s := s.(buffered := s.buffered - {s.nextExpected as int}, nextExpected := s.nextExpected + |chunk|);
        assert before + ([w] + ProcessBuffer(s).1) == writes + ProcessBuffer(s).1;
      }
      assert writes + [] == writes;
    }

    method ApplyChunk(uploadId: string, offset: int, chunk: Bytes) returns (outcome: Outcome, writes: seq<Write>)
      modifies this
      ensures uploadId !in old(sessions) ==>
                outcome == Raised(SessionNotFound) && writes == [] && sessions == old(sessions)
      ensures uploadId in old(sessions) ==>
                var e := Apply(uploadMode, old(sessions)[uploadId], offset, chunk);
                && outcome == e.outcome && writes == e.writes
                && sessions == if Finishes(e.outcome) then old(sessions) - {uploadId}
                   else old(sessions)[uploadId := e.session]
    {
      writes := [];
      if uploadId !in sessions {
        return Raised(SessionNotFound), [];
      }
      var session := sessions[uploadId];
      if offset < session.nextExpected {
        if offset + |chunk| <= session.nextExpected {
          return Replied(session.nextExpected == session.totalSize, DuplicateIgnored), [];
        }
        return Raised(Overlapping), [];
      }
      if offset == session.nextExpected {
        writes := [Write(session.nextExpected, chunk)];
        session := session.(nextExpected := session.nextExpected + |chunk|);
        if uploadMode == Bufferable {
          var rest;
          session, rest := DrainBuffer(session);
          writes := writes + rest;
        }
      } else if uploadMode == Strict {
        return Raised(OutOfOrder), [];
      } else {
        session := session.(buffered := session.buffered[offset := chunk]);
      }
      sessions := sessions[uploadId := session];
      if session.nextExpected == session.totalSize {
        sessions := sessions - {uploadId};
        outcome := Replied(true, UploadComplete);
      } else {
        outcome := Replied(false, ChunkApplied);
      }
      assert var w := [Write(old(sessions)[uploadId].nextExpected, chunk)]; w + [] == w;
    }
  }

  // ---- Chunking a file -------------------------------------------------------------------------------

  datatype Chunk = Chunk(offset: nat, data: Bytes)

  /** Where a read of `size` bytes from `offset` stops; a negative size reads to the end. */
  function ReadEnd(file: Bytes, offset: nat, size: int): (end: nat)
    requires offset <= |file|
    ensures offset <= end <= |file|
  {
    if size < 0 || offset + size > |file| then |file| else offset + size
  }

  function Pieces(file: Bytes, offset: nat, size: int): seq<Chunk>
    requires offset <= |file|
    decreases |file| - offset
  {
    var end := ReadEnd(file, offset, size);
    if offset == |file| || end == offset then []
    else [Chunk(offset, file[offset..end])] + Pieces(file, end, size)
  }

  lemma PiecesUnfold(file: Bytes, offset: nat, size: int, before: seq<Chunk>)
    requires offset <= |file| && offset < ReadEnd(file, offset, size)
    ensures var end := ReadEnd(file, offset, size);
            before + Pieces(file, offset, size) == (before + [Chunk(offset, file[offset..end])])
                + Pieces(file, end, size)
  {
  }

  /** The reading loop: read until the end of the file or an empty read. */
  method GetChunks(file: Bytes, size: int) returns (chunks: seq<Chunk>)
    ensures chunks == Pieces(file, 0, size)
  {
    chunks := [];
    var offset := 0;
    while offset < |file|
      invariant 0 <= offset <= |file|
      invariant chunks + Pieces(file, offset, size) == Pieces(file, 0, size)
    {
      var data := file[offset..ReadEnd(file, offset, size)];
      if data == [] {
        break;
      }
      PiecesUnfold(file, offset, size, chunks);
      chunks := chunks + [Chunk(offset, data)];
      offset := offset + |data|;
    }
  }
}
