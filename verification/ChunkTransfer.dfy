/** internal/ops/ops_fs.go's chunked transfer: a file is sent in windows, each
    written at its own offset, and read back window by window. */
module ChunkTransfer {
  import opened Sequences
  import opened Wrappers

  type Bytes = seq<bv8>

  const DEFAULT_CHUNK := 1024 * 1024
  const MAX_CHUNK := 4 * 1024 * 1024

  datatype Entry = Missing | Directory | Regular(content: Bytes)

  /** The call that goes wrong while a chunk is written, if one does. A write that
      stops has written its first `cut` bytes. */
  datatype Luck = Fine | DirFails | OpenFails | WriteStops(cut: nat) | TruncateFails | CloseFails

  datatype Refusal = IsDirectory | TooLarge | NegativeOffset | NotFound | IoError

  // ---- what the operating system does to a file ----

  /** WriteAt: the bytes land at `at`; a hole before them reads as zeros. */
  function Overlay(c: Bytes, at: nat, d: Bytes): Bytes {
    if d == [] then c
    else
      Resized(c, at) + d + if at + |d| < |c| then c[at + |d|..] else []
  }

  lemma OverlayBytes(c: Bytes, at: nat, d: Bytes)
    ensures |Overlay(c, at, d)| == if d != [] && at + |d| > |c| then at + |d| else |c|
    ensures forall i :: at <= i < at + |d| ==> Overlay(c, at, d)[i] == d[i - at]
    ensures forall i :: 0 <= i < |c| && !(at <= i < at + |d|) ==> Overlay(c, at, d)[i] == c[i]
    ensures forall i :: |c| <= i < at && d != [] ==> Overlay(c, at, d)[i] == 0
  {
    var r := Overlay(c, at, d);
    if d != [] {
      assert forall i :: 0 <= i < at ==> r[i] == Resized(c, at)[i];
    }
  }

  /** Truncate: cut short, or lengthened by zeros. */
  function Resized(c: Bytes, n: nat): (r: Bytes)
    ensures |r| == n
    ensures forall i :: 0 <= i < n ==> r[i] == if i < |c| then c[i] else 0
  {
    if n <= |c| then c[..n] else c + seq(n - |c|, _ => 0)
  }

  // ---- one write ----

  /** Whether a valid request is carried out and said to be. */
  predicate Passes(offset: nat, d: Bytes, eof: bool, luck: Luck) {
    match luck
    case Fine => true
    case DirFails => offset != 0
    case OpenFails => false
    case WriteStops(_) => d == []
    case TruncateFails => !eof
    case CloseFails => false
  }

  /** What a chunk leaves of a file that was not a directory. */
  function After(e: Entry, offset: nat, d: Bytes, eof: bool, luck: Luck): Entry
    requires !e.Directory?
  {
    if luck.OpenFails? || (luck.DirFails? && offset == 0) then e
    else
      var base := if e.Missing? || offset == 0 then [] else e.content;
      if luck.WriteStops? && d != [] then
        Regular(Overlay(base, offset, if luck.cut < |d| then d[..luck.cut] else d))
      else
        var written := Overlay(base, offset, d);
        Regular(if eof && !luck.TruncateFails? then Resized(written, offset + |d|) else written)
  }

  /** A chunk has been received: its bytes stand at its offset, whatever else the file had
      still stands, unless the chunk was the opening one, holes are zeros, and the end of
      the file is the end of the chunk if that was said to be the last. */
  ghost predicate Received(e: Entry, offset: nat, d: Bytes, eof: bool, now: Entry) {
    var was := if e.Regular? && offset > 0 then e.content else [];
    && now.Regular?
    && |now.content| == (if eof || (d != [] && |was| < offset + |d|) then offset + |d| else |was|)
    && forall i :: 0 <= i < |now.content| ==>
         now.content[i] == if offset <= i < offset + |d| then d[i - offset] else if i < |was| then was[i] else 0
  }

  lemma PassedIsReceived(e: Entry, offset: nat, d: Bytes, eof: bool, luck: Luck)
    requires !e.Directory? && Passes(offset, d, eof, luck)
    ensures Received(e, offset, d, eof, After(e, offset, d, eof, luck))
  {
    OverlayBytes(if e.Missing? || offset == 0 then [] else e.content, offset, d);
  }

  class RemoteFile {
    var entry: Entry

    constructor (entry: Entry)
      ensures this.entry == entry
    {
      this.entry := entry;
    }

    /** A valid chunk, written where it belongs. */
    method Put(offset: nat, data: Bytes, eof: bool, luck: Luck) returns (r: Result<nat, Refusal>)
      requires !entry.Directory?
      modifies this
      ensures entry == After(old(entry), offset, data, eof, luck)
      ensures r == if Passes(offset, data, eof, luck) then Success(offset + |data|) else Failure(IoError)
    {
      if offset == 0 && luck.DirFails? {
        return Failure(IoError);
      }
      if luck.OpenFails? {
        return Failure(IoError);
      }
      if entry.Missing? || offset == 0 {
        entry := Regular([]);
      }
      if |data| > 0 {
        if luck.WriteStops? {
          entry := Regular(Overlay(entry.content, offset, if luck.cut < |data| then data[..luck.cut] else data));
          return Failure(IoError);
        }
        entry := Regular(Overlay(entry.content, offset, data));
      }
      var end := offset + |data|;
      if eof {
        if luck.TruncateFails? {
          return Failure(IoError);
        }
        entry := Regular(Resized(entry.content, end));
      }
      if luck.CloseFails? {
        return Failure(IoError);
      }
      return Success(end);
    }

    /** FsWriteChunk. */
    method WriteChunk(offset: int, data: Bytes, eof: bool, luck: Luck) returns (r: Result<nat, Refusal>)
      modifies this
      ensures old(entry).Directory? ==> r == Failure(IsDirectory) && entry == old(entry)
      ensures !old(entry).Directory? && |data| > MAX_CHUNK ==> r == Failure(TooLarge) && entry == old(entry)
      ensures !old(entry).Directory? && |data| <= MAX_CHUNK && offset < 0 ==>
        r == Failure(NegativeOffset) && entry == old(entry)
      ensures !old(entry).Directory? && |data| <= MAX_CHUNK && offset >= 0 ==>
        && entry == After(old(entry), offset, data, eof, luck)
        && r == if Passes(offset, data, eof, luck) then Success(offset + |data|) else Failure(IoError)
      ensures r.Success? ==>
        offset >= 0 && |data| <= 4 * 1024 * 1024 && Received(old(entry), offset, data, eof, entry)
    {
      if entry.Directory? {
        return Failure(IsDirectory);
      }
      if |data| > MAX_CHUNK {
        return Failure(TooLarge);
      }
      if offset < 0 {
        return Failure(NegativeOffset);
      }
      if Passes(offset, data, eof, luck) {
        PassedIsReceived(entry, offset, data, eof, luck);
      }
      r := Put(offset, data, eof, luck);
    }

    /** FsReadChunk: at most the size asked for, never more than the cap, and
        whether the file ends there. */
    method ReadChunk(offset: int, size: int) returns (r: Result<Window, Refusal>)
      ensures entry.Missing? ==> r == Failure(NotFound)
      ensures entry.Directory? ==> r == Failure(IsDirectory)
      ensures entry.Regular? && offset < 0 ==> r == Failure(NegativeOffset)
      ensures entry.Regular? && offset >= 0 ==> r.Success? && IsWindow(entry.content, offset, size, r.value)
      ensures r.Success? ==> |r.value.data| <= if size <= 0 then 1024 * 1024 else 4 * 1024 * 1024
    {
      if entry.Missing? {
        return Failure(NotFound);
      }
      if entry.Directory? {
        return Failure(IsDirectory);
      }
      if offset < 0 {
        return Failure(NegativeOffset);
      }
      var n := size;
      if n <= 0 {
        n := DEFAULT_CHUNK;
      }
      if n > MAX_CHUNK {
        n := MAX_CHUNK;
      }
      if offset >= |entry.content| {
        return Success(Window([], true));
      }
      var remaining := |entry.content| - offset;
      if n > remaining {
        n := remaining;
      }
      return Success(Window(entry.content[offset..offset + n], offset + n >= |entry.content|));
    }
  }

  datatype Window = Window(data: Bytes, eof: bool)

  /** The window is the file from `offset` on, as far as it goes; it is empty only
      past the end, and the end is announced exactly when it is reached. */
  predicate IsWindow(c: Bytes, offset: nat, size: int, w: Window) {
    && (offset >= |c| ==> w == Window([], true))
    && (offset < |c| ==>
          && 0 < |w.data| <= MAX_CHUNK
          && (0 < size ==> |w.data| <= size)
          && (!w.eof ==> |w.data| == if size <= 0 then DEFAULT_CHUNK else if size < MAX_CHUNK then size else MAX_CHUNK)
          && w.data <= c[offset..]
          && (w.eof <==> offset + |w.data| == |c|))
  }

  // ---- a whole file in chunks ----

  function Offset(chunks: seq<Bytes>, i: nat): nat
    requires i <= |chunks|
  {
    |Flat(chunks[..i])|
  }

  /** Non-empty pieces within the limit, or the single empty piece of an empty file. */
  predicate Sendable(chunks: seq<Bytes>) {
    chunks == [[]] || (chunks != [] && forall i :: 0 <= i < |chunks| ==> 0 < |chunks[i]| <= MAX_CHUNK)
  }

  /** One request for one chunk; `eof` may be said of the last one only. */
  datatype Attempt = Attempt(chunk: nat, eof: bool, luck: Luck)

  predicate Sound(chunks: seq<Bytes>, a: Attempt) {
    a.chunk < |chunks| && (a.eof ==> a.chunk == |chunks| - 1)
  }

  predicate AllSound(chunks: seq<Bytes>, attempts: seq<Attempt>) {
    forall i :: 0 <= i < |attempts| ==> Sound(chunks, attempts[i])
  }

  function Sent(e: Entry, chunks: seq<Bytes>, a: Attempt): Entry
    requires Sound(chunks, a) && !e.Directory?
  {
    After(e, Offset(chunks, a.chunk), chunks[a.chunk], a.eof, a.luck)
  }

  predicate Arrives(chunks: seq<Bytes>, a: Attempt)
    requires Sound(chunks, a)
  {
    Passes(Offset(chunks, a.chunk), chunks[a.chunk], a.eof, a.luck)
  }

  function Delivered(e: Entry, chunks: seq<Bytes>, attempts: seq<Attempt>): (r: Entry)
    requires !e.Directory? && AllSound(chunks, attempts)
    ensures !r.Directory?
  {
    if attempts == [] then e
    else Sent(Delivered(e, chunks, attempts[..|attempts| - 1]), chunks, attempts[|attempts| - 1])
  }

  lemma {:induction false} OffsetSteps(chunks: seq<Bytes>, j: nat)
    requires j < |chunks|
    ensures Offset(chunks, j + 1) == Offset(chunks, j) + |chunks[j]|
    ensures Flat(chunks[..j + 1]) == Flat(chunks[..j]) + chunks[j]
  {
    assert chunks[..j + 1][..j] == chunks[..j];
  }

  lemma {:induction false} OffsetGrows(chunks: seq<Bytes>, j: nat, k: nat)
    requires j <= k <= |chunks|
    ensures Offset(chunks, j) <= Offset(chunks, k)
    ensures Flat(chunks[..j]) <= Flat(chunks[..k])
    decreases k
  {
    if j == k {
    } else {
      OffsetGrows(chunks, j, k - 1);
      OffsetSteps(chunks, k - 1);
    }
  }

  /** The window of one chunk in the whole file. */
  lemma WindowOf(chunks: seq<Bytes>, j: nat)
    requires j < |chunks|
    ensures Offset(chunks, j) + |chunks[j]| <= |Flat(chunks)|
    ensures j == |chunks| - 1 ==> Offset(chunks, j) + |chunks[j]| == |Flat(chunks)|
  {
    OffsetSteps(chunks, j);
    OffsetGrows(chunks, j + 1, |chunks|);
    assert chunks[..|chunks|] == chunks;
  }

  /** The chunks in `done` are in place, and nothing is past the end. */
  ghost predicate Holds(c: Bytes, chunks: seq<Bytes>, done: set<nat>) {
    && |c| <= |Flat(chunks)|
    && forall j :: j in done ==> InPlace(c, chunks, j)
  }

  predicate InPlace(c: Bytes, chunks: seq<Bytes>, j: nat) {
    j < |chunks| && Shows(c, Offset(chunks, j), chunks[j])
  }

  /** Writing one window leaves another chunk that is in place, in place. */
  lemma OtherKept(c: Bytes, r: Bytes, chunks: seq<Bytes>, i: nat, j: nat)
    requires i < |chunks| && i != j && InPlace(c, chunks, j)
    requires |r| >= |c| || |r| == |Flat(chunks)|
    requires forall k :: 0 <= k < |c| && k < |r| && !(Offset(chunks, i) <= k < Offset(chunks, i) + |chunks[i]|) ==>
      r[k] == c[k]
    ensures InPlace(r, chunks, j)
  {
    var at := Offset(chunks, j);
    WindowOf(chunks, j);
    OffsetSteps(chunks, i);
    OffsetSteps(chunks, j);
    if i < j {
      OffsetGrows(chunks, i + 1, j);
    } else {
      OffsetGrows(chunks, j + 1, i);
    }
    forall k | at <= k < at + |chunks[j]| ensures r[k] == c[k] {}
    assert r[at..at + |chunks[j]|] == c[at..at + |chunks[j]|];
  }

  /** The opening chunk, once it arrives, wipes out whatever the file held. */
  lemma OpeningArrives(e: Entry, chunks: seq<Bytes>, a: Attempt)
    requires !e.Directory? && Sound(chunks, a) && a.chunk == 0 && Arrives(chunks, a)
    ensures Sent(e, chunks, a) == Regular(chunks[0])
    ensures Holds(chunks[0], chunks, {0})
  {
    assert chunks[..0] == [];
    WindowOf(chunks, 0);
  }

  /** A later chunk, whatever goes wrong with it, disturbs no chunk in place. */
  lemma LaterArrives(c: Bytes, chunks: seq<Bytes>, done: set<nat>, a: Attempt)
    requires Holds(c, chunks, done) && Sound(chunks, a) && a.chunk != 0 && Sendable(chunks)
    ensures Sent(Regular(c), chunks, a).Regular?
    ensures Holds(Sent(Regular(c), chunks, a).content, chunks, if Arrives(chunks, a) then done + {a.chunk} else done)
  {
    var i := a.chunk;
    var at := Offset(chunks, i);
    OffsetSteps(chunks, 0);
    OffsetGrows(chunks, 1, i);
    WindowOf(chunks, i);
    var r := Sent(Regular(c), chunks, a).content;
    OneWriteFrame(c, at, chunks[i], a.eof, a.luck);
    if Arrives(chunks, a) || i in done {
      OneWriteShows(c, at, chunks[i], a.eof, a.luck);
    }
    forall j | j in done && j != i ensures InPlace(r, chunks, j) {
      OtherKept(c, r, chunks, i, j);
    }
  }

  /** `d` stands at `at`. */
  predicate Shows(c: Bytes, at: nat, d: Bytes) {
    at + |d| <= |c| && c[at..at + |d|] == d
  }

  ghost predicate OnlyWindow(c: Bytes, r: Bytes, at: nat, d: Bytes) {
    && (|c| <= at + |d| ==> |c| <= |r| <= at + |d|)
    && (forall k :: 0 <= k < |c| && k < |r| && !(at <= k < at + |d|) ==> r[k] == c[k])
  }

  /** One write past the start changes its own window only. */
  lemma OneWriteFrame(c: Bytes, at: nat, d: Bytes, eof: bool, luck: Luck)
    requires at > 0
    ensures After(Regular(c), at, d, eof, luck).Regular?
    ensures OnlyWindow(c, After(Regular(c), at, d, eof, luck).content, at, d)
    ensures |c| <= |After(Regular(c), at, d, eof, luck).content| || eof
  {
    OverlayBytes(c, at, if luck.WriteStops? && luck.cut < |d| then d[..luck.cut] else d);
  }

  lemma OverlayShows(c: Bytes, at: nat, d: Bytes)
    requires d != []
    ensures Shows(Overlay(c, at, d), at, d)
  {
    OverlayBytes(c, at, d);
    assert Overlay(c, at, d)[at..at + |d|] == d;
  }

  lemma OverlaySame(c: Bytes, at: nat, d: Bytes, n: nat)
    requires Shows(c, at, d) && n <= |d|
    ensures Overlay(c, at, d[..n]) == c
  {
    OverlayBytes(c, at, d[..n]);
    forall k | at <= k < at + n ensures c[k] == d[k - at] {
      assert c[at..at + |d|][k - at] == c[k];
    }
  }

  /** A write that passes shows its data, and none spoils data that is there. */
  lemma OneWriteShows(c: Bytes, at: nat, d: Bytes, eof: bool, luck: Luck)
    requires at > 0 && d != [] && (Passes(at, d, eof, luck) || Shows(c, at, d))
    ensures After(Regular(c), at, d, eof, luck).Regular?
    ensures Shows(After(Regular(c), at, d, eof, luck).content, at, d)
  {
    OverlayShows(c, at, d);
    ResizedShows(Overlay(c, at, d), at, d);
    if Shows(c, at, d) && luck.WriteStops? {
      assert d[..|d|] == d;
      OverlaySame(c, at, d, if luck.cut < |d| then luck.cut else |d|);
    }
  }

  lemma ResizedShows(c: Bytes, at: nat, d: Bytes)
    requires Shows(c, at, d)
    ensures Shows(Resized(c, at + |d|), at, d)
  {
    assert Resized(c, at + |d|) == c[..at + |d|];
  }

  /** Which chunks have arrived since the opening chunk last did, at `z`. */
  function ArrivedSince(chunks: seq<Bytes>, attempts: seq<Attempt>, z: nat): set<nat>
    requires AllSound(chunks, attempts)
  {
    set i | z <= i < |attempts| && Arrives(chunks, attempts[i]) :: attempts[i].chunk
  }

  lemma ArrivedOneMore(chunks: seq<Bytes>, attempts: seq<Attempt>, z: nat)
    requires z < |attempts| && AllSound(chunks, attempts)
    ensures ArrivedSince(chunks, attempts, z) ==
            ArrivedSince(chunks, attempts[..|attempts| - 1], z) +
            if Arrives(chunks, attempts[|attempts| - 1]) then {attempts[|attempts| - 1].chunk} else {}
  {
    var n := |attempts| - 1;
    assert forall i :: 0 <= i < n ==> attempts[i] == attempts[..n][i];
  }

  lemma {:induction false} SinceTheOpening(e: Entry, chunks: seq<Bytes>, attempts: seq<Attempt>, z: nat)
    requires Sendable(chunks) && !e.Directory? && AllSound(chunks, attempts)
    requires z < |attempts| && attempts[z].chunk == 0 && Arrives(chunks, attempts[z])
    requires forall i :: z < i < |attempts| ==> attempts[i].chunk != 0
    ensures Delivered(e, chunks, attempts).Regular?
    ensures Holds(Delivered(e, chunks, attempts).content, chunks, ArrivedSince(chunks, attempts, z))
    decreases attempts
  {
    var n := |attempts| - 1;
    var front, a := attempts[..n], attempts[n];
    if z == n {
      OpeningArrives(Delivered(e, chunks, front), chunks, a);
      assert ArrivedSince(chunks, attempts, z) == {0};
    } else {
      assert front[z] == attempts[z];
      SinceTheOpening(e, chunks, front, z);
      var done := ArrivedSince(chunks, front, z);
      LaterArrives(Delivered(e, chunks, front).content, chunks, done, a);
      ArrivedOneMore(chunks, attempts, z);
    }
  }

  lemma {:induction false} AllInPlace(c: Bytes, chunks: seq<Bytes>, n: nat)
    requires n <= |chunks| && forall j :: 0 <= j < n ==> InPlace(c, chunks, j)
    ensures Flat(chunks[..n]) <= c
  {
    if n == 0 {
    } else {
      AllInPlace(c, chunks, n - 1);
      OffsetSteps(chunks, n - 1);
      var at := Offset(chunks, n - 1);
      assert InPlace(c, chunks, n - 1);
      assert c[..at + |chunks[n - 1]|] == c[..at] + c[at..at + |chunks[n - 1]|];
    }
  }

  /** Upload. Whatever the file held, however often chunks were repeated, in whatever
      order, and whatever went wrong in between: once every chunk has arrived since the
      opening chunk last did, the file is the data. */
  lemma Uploaded(e: Entry, chunks: seq<Bytes>, attempts: seq<Attempt>, z: nat)
    requires Sendable(chunks) && !e.Directory? && AllSound(chunks, attempts)
    requires z < |attempts| && attempts[z].chunk == 0 && Arrives(chunks, attempts[z])
    requires forall i :: z < i < |attempts| ==> attempts[i].chunk != 0
    requires forall j :: 0 <= j < |chunks| ==> j in ArrivedSince(chunks, attempts, z)
    ensures Delivered(e, chunks, attempts) == Regular(Flat(chunks))
  {
    SinceTheOpening(e, chunks, attempts, z);
    var c := Delivered(e, chunks, attempts).content;
    AllInPlace(c, chunks, |chunks|);
    assert chunks[..|chunks|] == chunks;
  }

  /** Repeating the opening chunk after another one loses the others. */
  lemma LateOpeningLosesTheRest(e: Entry, chunks: seq<Bytes>, attempts: seq<Attempt>)
    requires Sendable(chunks) && |chunks| > 1 && !e.Directory? && AllSound(chunks, attempts)
    requires attempts != [] && attempts[|attempts| - 1].chunk == 0 && Arrives(chunks, attempts[|attempts| - 1])
    ensures Delivered(e, chunks, attempts) != Regular(Flat(chunks))
  {
    var n := |attempts| - 1;
    OpeningArrives(Delivered(e, chunks, attempts[..n]), chunks, attempts[n]);
    OffsetSteps(chunks, 0);
    OffsetSteps(chunks, 1);
    OffsetGrows(chunks, 2, |chunks|);
    assert chunks[..|chunks|] == chunks && chunks[..0] == [];
  }

  /** Send the attempts one by one. */
  method Upload(f: RemoteFile, chunks: seq<Bytes>, attempts: seq<Attempt>)
    requires Sendable(chunks) && !f.entry.Directory? && AllSound(chunks, attempts)
    modifies f
    ensures f.entry == Delivered(old(f.entry), chunks, attempts)
  {
    for i := 0 to |attempts|
      invariant f.entry == Delivered(old(f.entry), chunks, attempts[..i])
    {
      var a := attempts[i];
      assert attempts[..i + 1][..i] == attempts[..i];
      assert Sound(chunks, a) && |chunks[a.chunk]| <= MAX_CHUNK;
      var _ := f.WriteChunk(Offset(chunks, a.chunk), chunks[a.chunk], a.eof, a.luck);
    }
    assert attempts[..|attempts|] == attempts;
  }

  /** Read until told it is the end, asking for any sizes at all. */
  method Download(f: RemoteFile, sizes: nat -> int) returns (data: Bytes)
    requires f.entry.Regular?
    ensures data == f.entry.content
  {
    data := [];
    var eof, asked := false, 0;
    while !eof
      invariant data <= f.entry.content
      invariant eof ==> data == f.entry.content
      decreases !eof, |f.entry.content| - |data|
    {
      var r := f.ReadChunk(|data|, sizes(asked));
      var w := r.value;
      Extends(f.entry.content, data, sizes(asked), w);
      data, eof, asked := data + w.data, w.eof, asked + 1;
    }
  }

  lemma Extends(c: Bytes, data: Bytes, size: int, w: Window)
    requires data <= c && IsWindow(c, |data|, size, w)
    ensures data + w.data <= c
    ensures w.eof ==> data + w.data == c
    ensures !w.eof ==> w.data != []
  {
    assert c == data + c[|data|..];
  }

  /** What was sent is what is read back. */
  method RoundTrip(f: RemoteFile, chunks: seq<Bytes>, attempts: seq<Attempt>, z: nat, sizes: nat -> int)
    returns (data: Bytes)
    requires Sendable(chunks) && !f.entry.Directory? && AllSound(chunks, attempts)
    requires z < |attempts| && attempts[z].chunk == 0 && Arrives(chunks, attempts[z])
    requires forall i :: z < i < |attempts| ==> attempts[i].chunk != 0
    requires forall j :: 0 <= j < |chunks| ==> j in ArrivedSince(chunks, attempts, z)
    modifies f
    ensures data == Flat(chunks)
  {
    Uploaded(f.entry, chunks, attempts, z);
    Upload(f, chunks, attempts);
    data := Download(f, sizes);
  }
}
