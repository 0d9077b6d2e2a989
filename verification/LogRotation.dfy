/** internal/rlog/rlog.go: the operational log, a file and the generations it was
    rotated into. A character stands for a byte. */
module LogRotation {
  import opened Sequences

  const MAX_LOG_SIZE := 5 * 1024 * 1024
  const MAX_LOG_BACKUPS := 3

  type Line = string

  // ---- the log as lists of lines ----

  /** `gens[0]` is the file being written, `gens[i]` the one rotated `i` times. */
  datatype Log = Log(gens: seq<seq<Line>>, open: bool)

  const EMPTY := Log([[], [], [], []], true)

  ghost predicate WellFormed(l: Log) {
    |l.gens| == MAX_LOG_BACKUPS + 1
  }

  function Stamped(stamp: string, msg: string): Line {
    stamp + " " + msg + if msg != "" && msg[|msg| - 1] == '\n' then "" else "\n"
  }

  /** A logged line is the stamp, a blank and the message, and ends in one newline, the
      message's own if it has one. */
  lemma StampedLine(stamp: string, msg: string)
    ensures stamp + " " + msg <= Stamped(stamp, msg)
    ensures Stamped(stamp, msg)[|Stamped(stamp, msg)| - 1] == '\n'
    ensures |Stamped(stamp, msg)| == |stamp| + 1 + |msg| <==> msg != "" && msg[|msg| - 1] == '\n'
    ensures |Stamped(stamp, msg)| <= |stamp| + 1 + |msg| + 1
  {
  }

  function Written(l: Log, line: Line): Log
    requires WellFormed(l) && l.open
  {
    l.(gens := l.gens[0 := l.gens[0] + [line]])
  }

  function Rotated(l: Log, reopens: bool): Log
    requires WellFormed(l)
  {
    Log([[]] + l.gens[..MAX_LOG_BACKUPS], reopens)
  }

  function Turned(l: Log, next: int, reopens: bool): Log
    requires WellFormed(l)
  {
    if |Flat(l.gens[0])| + next <= MAX_LOG_SIZE then l else Rotated(l, reopens)
  }

  function Logged(l: Log, line: Line, reopens: bool): (r: Log)
    requires WellFormed(l)
    ensures WellFormed(r)
  {
    if !l.open then l
    else
      var r := Turned(l, |line|, reopens);
      if r.open then Written(r, line) else r
  }

  // ---- the code ----

  /** client.log is 0, client.log.1 is 1 and so on; a missing file reads as nothing. */
  function Content(files: map<int, string>, i: int): string {
    if i in files then files[i] else ""
  }

  class RotatingLog {
    var files: map<int, string>
    var open: bool
    var size: int
    var console: seq<Line>

    ghost predicate Valid()
      reads this
    {
      && (open ==> 0 in files && size == |files[0]|)
      && (forall i :: i in files ==> 0 <= i <= MAX_LOG_BACKUPS)
    }

    /** The files hold these lines. */
    ghost predicate Shows(l: Log)
      reads this
    {
      && Valid() && WellFormed(l) && l.open == open
      && forall i :: 0 <= i <= MAX_LOG_BACKUPS ==> Content(files, i) == Flat(l.gens[i])
    }

    constructor ()
      ensures Shows(EMPTY) && console == []
    {
      files, open, size, console := map[0 := ""], true, 0, [];
    }

    method Rename(a: int, b: int)
      requires a != b
      modifies this`files
      ensures files == if a in old(files) then old(files)[b := old(files)[a]] - {a} else old(files)
    {
      if a in files {
        files := files[b := files[a]] - {a};
      }
    }

    /** Every generation but the newest moves one down, the oldest first; the last is gone. */
    method ShiftDown()
      requires forall k :: k in files ==> 0 <= k <= MAX_LOG_BACKUPS
      modifies this`files
      ensures forall k :: k in files ==> 0 <= k <= MAX_LOG_BACKUPS
      ensures 1 !in files && Content(files, 0) == Content(old(files), 0)
      ensures forall k :: 2 <= k <= MAX_LOG_BACKUPS ==> Content(files, k) == Content(old(files), k - 1)
    {
      var i := MAX_LOG_BACKUPS;
      while i >= 1
        invariant 0 <= i <= MAX_LOG_BACKUPS
        invariant forall k :: k in files ==> 0 <= k <= MAX_LOG_BACKUPS
        invariant i < MAX_LOG_BACKUPS ==> i + 1 !in files
        invariant forall k :: k <= i ==> Content(files, k) == Content(old(files), k)
        invariant forall k :: i + 2 <= k <= MAX_LOG_BACKUPS ==> Content(files, k) == Content(old(files), k - 1)
      {
        ghost var was := files;
        if i == MAX_LOG_BACKUPS {
          files := files - {i};
        } else {
          Rename(i, i + 1);
        }
        assert forall k :: k != i && k != i + 1 ==> Content(files, k) == Content(was, k);
        i := i - 1;
      }
    }

    /** rotateIfNeededLocked. */
    method RotateIfNeeded(next: int, reopens: bool)
      requires Valid() && open
      modifies this`files, this`open, this`size
      ensures Valid()
      ensures old(size) + next <= MAX_LOG_SIZE ==> files == old(files) && open && size == old(size)
      ensures old(size) + next > MAX_LOG_SIZE ==>
        && open == reopens
        && Content(files, 0) == ""
        && forall i :: 0 < i <= MAX_LOG_BACKUPS ==> Content(files, i) == Content(old(files), i - 1)
    {
      if size + next <= MAX_LOG_SIZE {
        return;
      }
      ShiftDown();
      ghost var was := files;
      Rename(0, 1);
      open := reopens;
      if reopens {
        files := files[0 := ""];
        size := 0;
      }
      assert forall k :: k != 0 && k != 1 ==> Content(files, k) == Content(was, k);
    }

    /** The same, seen on the lists of lines. */
    method Turn(next: int, reopens: bool, ghost l: Log)
      requires Shows(l) && open
      modifies this`files, this`open, this`size
      ensures Shows(Turned(l, next, reopens))
    {
      RotateIfNeeded(next, reopens);
    }

    method Append(line: Line, ghost l: Log)
      requires Shows(l) && open
      modifies this`files, this`size
      ensures Shows(Written(l, line))
    {
      ghost var was := files;
      files := files[0 := files[0] + line];
      size := size + |line|;
      FlatMore(l.gens[0], line);
      assert forall k :: k != 0 ==> Content(files, k) == Content(was, k);
    }

    /** write: the console gets every line, the file as long as it is open. */
    method Write(stamp: string, msg: string, reopens: bool, ghost l: Log)
      requires Shows(l)
      modifies this
      ensures Shows(Logged(l, Stamped(stamp, msg), reopens))
      ensures console == old(console) + [Stamped(stamp, msg)]
    {
      var text := msg;
      if text == "" || text[|text| - 1] != '\n' {
        text := text + "\n";
      }
      var line := stamp + " " + text;
      assert line == Stamped(stamp, msg);
      console := console + [line];
      assert Shows(l);
      if open {
        Turn(|line|, reopens, l);
        if open {
          Append(line, Turned(l, |line|, reopens));
        }
      }
    }
  }

  // ---- what is kept ----

  function LoggedAll(lines: seq<Line>, reopens: nat -> bool): (l: Log)
    ensures WellFormed(l)
  {
    if lines == [] then EMPTY
    else Logged(LoggedAll(lines[..|lines| - 1], reopens), lines[|lines| - 1], reopens(|lines| - 1))
  }

  /** Everything on disk, oldest first. */
  function Kept(l: Log): seq<Line>
    requires WellFormed(l)
  {
    l.gens[3] + l.gens[2] + l.gens[1] + l.gens[0]
  }

  /** No generation passes the cap, and each was left only for a line that did not fit. */
  ghost predicate Packed(l: Log)
    requires WellFormed(l)
  {
    && (forall i :: 0 <= i <= MAX_LOG_BACKUPS ==> |Flat(l.gens[i])| <= MAX_LOG_SIZE)
    && (forall i :: 1 < i <= MAX_LOG_BACKUPS ==> FullBefore(l.gens[i], l.gens[i - 1]))
    && (if l.open then FullBefore(l.gens[1], l.gens[0]) else l.gens[0] == [])
  }

  predicate FullBefore(older: seq<Line>, newer: seq<Line>) {
    older != [] ==> newer != [] && |Flat(older)| + |newer[0]| > MAX_LOG_SIZE
  }

  lemma {:induction false} FirstFits(lines: seq<Line>)
    requires lines != []
    ensures |lines[0]| <= |Flat(lines)|
  {
    if |lines| > 1 {
      FirstFits(lines[..|lines| - 1]);
    } else {
      assert lines[..0] == [];
    }
  }

  lemma PackedStep(l: Log, line: Line, reopens: bool)
    requires WellFormed(l) && Packed(l) && |line| <= MAX_LOG_SIZE
    ensures Packed(Logged(l, line, reopens))
  {
    FlatMore(l.gens[0], line);
    FlatMore([], line);
  }

  /** A dropped generation was full, and so were those that stay. */
  lemma TwoCaps(l: Log)
    requires WellFormed(l) && Packed(l) && l.open && l.gens[3] != []
    ensures |Flat(Kept(l))| > 2 * MAX_LOG_SIZE
  {
    KeptBytes(l);
    FirstFits(l.gens[2]);
    FirstFits(l.gens[0]);
  }

  lemma KeptBytes(l: Log)
    requires WellFormed(l)
    ensures Flat(Kept(l)) == Flat(l.gens[3]) + Flat(l.gens[2]) + Flat(l.gens[1]) + Flat(l.gens[0])
  {
    FlatJoins(l.gens[3], l.gens[2]);
    FlatJoins(l.gens[3] + l.gens[2], l.gens[1]);
    FlatJoins(l.gens[3] + l.gens[2] + l.gens[1], l.gens[0]);
  }

  /** A step keeps the order, adds the line at the end, and drops whole lines at the front. */
  lemma StepKeeps(l: Log, line: Line, reopens: bool)
    requires WellFormed(l)
    ensures Logged(l, line, reopens).open ==> l.open
    ensures Logged(l, line, reopens).open ==>
      Kept(Logged(l, line, reopens)) == (Kept(l) + [line])[DropCount(l, line)..]
    ensures l.open && !Logged(l, line, reopens).open ==>
      Kept(Logged(l, line, reopens)) == Kept(l)[DropCount(l, line)..]
    ensures !l.open ==> Logged(l, line, reopens) == l
  {
    var r := Logged(l, line, reopens);
    assert Kept(l)[|l.gens[3]|..] == l.gens[2] + l.gens[1] + l.gens[0];
  }

  function DropCount(l: Log, line: Line): (n: nat)
    requires WellFormed(l)
    ensures n <= |Kept(l)|
  {
    if |Flat(l.gens[0])| + |line| <= MAX_LOG_SIZE then 0 else |l.gens[3]|
  }

  /** What is on disk is lines k to d of all that were logged. */
  ghost predicate Holding(l: Log, lines: seq<Line>, k: nat, d: nat) {
    && WellFormed(l) && Packed(l)
    && k <= d <= |lines| && Kept(l) == lines[k..d]
    && (l.open ==> d == |lines|)
    && (k > 0 && l.open ==> l.gens[3] != [])
  }

  lemma Slices(lines: seq<Line>, line: Line, k: nat, d: nat, c: nat)
    requires k + c <= d <= |lines|
    ensures (lines + [line])[k + c..d] == lines[k..d][c..]
    ensures d == |lines| ==> (lines + [line])[k + c..d + 1] == (lines[k..d] + [line])[c..]
  {
  }

  lemma HoldingStep(l: Log, lines: seq<Line>, k: nat, d: nat, line: Line, reopens: bool) returns (k': nat, d': nat)
    requires Holding(l, lines, k, d) && |line| <= MAX_LOG_SIZE
    ensures Holding(Logged(l, line, reopens), lines + [line], k', d')
  {
    PackedStep(l, line, reopens);
    StepKeeps(l, line, reopens);
    var c := DropCount(l, line);
    k', d' := k, d;
    if l.open {
      Slices(lines, line, k, d, c);
      k', d' := k + c, if Logged(l, line, reopens).open then d + 1 else d;
    } else {
      Slices(lines, line, k, d, 0);
    }
  }

  lemma HoldsNothing()
    ensures Holding(EMPTY, [], 0, 0)
  {
  }

  predicate AllFit(lines: seq<Line>) {
    forall i :: 0 <= i < |lines| ==> |lines[i]| <= MAX_LOG_SIZE
  }

  lemma LoggedMore(lines: seq<Line>, line: Line, reopens: nat -> bool)
    ensures LoggedAll(lines + [line], reopens) == Logged(LoggedAll(lines, reopens), line, reopens(|lines|))
  {
    assert (lines + [line])[..|lines|] == lines;
  }

  lemma {:induction false} HoldsSome(lines: seq<Line>, reopens: nat -> bool) returns (k: nat, d: nat)
    requires AllFit(lines)
    ensures Holding(LoggedAll(lines, reopens), lines, k, d)
  {
    if lines == [] {
      k, d := 0, 0;
      HoldsNothing();
    } else {
      var front, line := lines[..|lines| - 1], lines[|lines| - 1];
      k, d := HoldsSome(front, reopens);
      assert lines == front + [line];
      LoggedMore(front, line, reopens);
      k, d := HoldingStep(LoggedAll(front, reopens), front, k, d, line, reopens(|front|));
    }
  }

  /** After any lines within the cap, and whether or not the file could be reopened:
      what is on disk is lines k to d of all that were logged, whole and in order,
      d is the end while the log is open, no generation passes the cap, and once a
      line has been dropped more than two caps' worth is there. */
  lemma KeepsASuffix(lines: seq<Line>, reopens: nat -> bool) returns (k: nat, d: nat)
    requires AllFit(lines)
    ensures k <= d <= |lines| && Kept(LoggedAll(lines, reopens)) == lines[k..d]
    ensures LoggedAll(lines, reopens).open ==> d == |lines|
    ensures forall i :: 0 <= i <= 3 ==> |Flat(LoggedAll(lines, reopens).gens[i])| <= 5 * 1024 * 1024
    ensures |Flat(Kept(LoggedAll(lines, reopens)))| <= 4 * 5 * 1024 * 1024
    ensures k > 0 && LoggedAll(lines, reopens).open ==> |Flat(Kept(LoggedAll(lines, reopens)))| > 2 * 5 * 1024 * 1024
  {
    k, d := HoldsSome(lines, reopens);
    var l := LoggedAll(lines, reopens);
    KeptBytes(l);
    if k > 0 && l.open {
      TwoCaps(l);
    }
  }

  lemma OneMoreStamped(stamps: seq<string>, msgs: seq<string>, i: nat)
    requires |stamps| == |msgs| && i < |msgs|
    ensures AllStamped(stamps[..i + 1], msgs[..i + 1])
         == AllStamped(stamps[..i], msgs[..i]) + [Stamped(stamps[i], msgs[i])]
  {
    assert stamps[..i + 1][..i] == stamps[..i] && msgs[..i + 1][..i] == msgs[..i];
  }

  /** A whole run of the code, ending where the lists of lines say. */
  method WriteAll(log: RotatingLog, stamps: seq<string>, msgs: seq<string>, reopens: nat -> bool)
    requires |stamps| == |msgs| && log.Shows(EMPTY) && log.console == []
    modifies log
    ensures log.console == AllStamped(stamps, msgs)
    ensures log.Shows(LoggedAll(AllStamped(stamps, msgs), reopens))
  {
    for i := 0 to |msgs|
      invariant log.console == AllStamped(stamps[..i], msgs[..i])
      invariant log.Shows(LoggedAll(AllStamped(stamps[..i], msgs[..i]), reopens))
    {
      ghost var before := AllStamped(stamps[..i], msgs[..i]);
      log.Write(stamps[i], msgs[i], reopens(i), LoggedAll(before, reopens));
      OneMoreStamped(stamps, msgs, i);
      LoggedMore(before, Stamped(stamps[i], msgs[i]), reopens);
    }
    assert stamps[..|msgs|] == stamps && msgs[..|msgs|] == msgs;
  }

  function AllStamped(stamps: seq<string>, msgs: seq<string>): (lines: seq<Line>)
    requires |stamps| == |msgs|
    ensures |lines| == |msgs|
  {
    if msgs == [] then []
    else
      var n := |msgs| - 1;
      AllStamped(stamps[..n], msgs[..n]) + [Stamped(stamps[n], msgs[n])]
  }
}
