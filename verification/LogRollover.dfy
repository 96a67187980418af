/** Writing to a rotating log, `common/logger/log_rollover.go:92-291`: the directory as a map from
    names to contents. Where an operation may rename the active file, `name` is the backup name that
    the clock gives at that moment; it is free when no two rotations fall into one millisecond. */
module LogRollover {

  import opened Basics

  type Files = map<string, seq<Byte>>

  const MEGABYTE := 1024 * 1024
  const DEFAULT_MAX_FILE_SIZE := 100 * MEGABYTE

  /** The file the log holds: none yet, an open one, or one that Close has closed. */
  datatype Handle = NoFile | Open | Shut

  datatype Outcome = Ok | TooLarge | AlreadyClosed

  datatype Log = Log(
    filename: string,
    maxSize: int,                // in megabytes; 0 for the default
    files: Files,
    backups: seq<string>,        // renamed by this log, in order
    handle: Handle,
    size: int)
  {
    /** The limit of one file. */
    function Limit(): int {
      if maxSize != 0 then maxSize * MEGABYTE else DEFAULT_MAX_FILE_SIZE
    }

    function Active(): seq<Byte> {
      if filename in files then files[filename] else []
    }

    /** What a file of this log can grow to. */
    function Cap(): nat {
      if Limit() < 0 then 0 else Limit()
    }

    predicate Valid() {
      && (handle == Open ==> filename in files && size == |files[filename]| <= Cap())
      && filename !in backups
      && forall i :: 0 <= i < |backups| ==> backups[i] in files
    }

    /** Everything logged: the backups in the order of rotation, then the active file. */
    function Text(): seq<Byte> {
      Contents(files, backups) + Active()
    }

    /** The name of a backup made now. */
    predicate IsFree(name: string) {
      name !in files && name != filename
    }
  }

  function Contents(files: Files, names: seq<string>): seq<Byte> {
    if names == [] then []
    else
      var last := names[|names| - 1];
      Contents(files, names[..|names| - 1]) + if last in files then files[last] else []
  }

  lemma {:induction false} ContentsFrame(files: Files, files': Files, names: seq<string>)
    requires forall i :: 0 <= i < |names| ==> names[i] in files && names[i] in files' && files'[names[i]] == files[names[i]]
    ensures Contents(files', names) == Contents(files, names)
  {
    if names != [] {
      ContentsFrame(files, files', names[..|names| - 1]);
    }
  }

  // ---------------------------------------------------------------------------
  // Operations
  // ---------------------------------------------------------------------------

  /** `rotate` on a file that is not closed, and `openNew`: the old file, if there is one, becomes
      the backup `name`, and an empty one is begun. */
  function Rotated(l: Log, name: string): Log {
    if l.filename in l.files then
      l.(files := l.files[name := l.files[l.filename]][l.filename := []],
         backups := l.backups + [name], handle := Open, size := 0)
    else
      l.(files := l.files[l.filename := []], handle := Open, size := 0)
  }

  function AfterRotate(l: Log, name: string): (Log, Outcome) {
    if l.handle == Shut then (l, AlreadyClosed) else (Rotated(l, name), Ok)
  }

  /** Whether a write of `n` bytes begins a new file: a file found at the first write is left as
      soon as it would reach the limit, one that is open when it would exceed it. */
  predicate Rotates(l: Log, n: nat) {
    match l.handle
    case NoFile => l.filename in l.files ==> |l.Active()| + n >= l.Limit()
    case Open => l.size + n > l.Limit()
    case Shut => false
  }

  function AfterWrite(l: Log, p: seq<Byte>, name: string): (Log, Outcome) {
    if |p| > l.Limit() then (l, TooLarge)
    else if l.handle == Shut then (l, AlreadyClosed)
    else (Appended(Prepared(l, |p|, name), p), Ok)
  }

  /** The file that `n` bytes are to be written to, opened. */
  function Prepared(l: Log, n: nat, name: string): Log {
    if Rotates(l, n) then Rotated(l, name)
    else l.(files := l.files[l.filename := l.Active()], handle := Open, size := |l.Active()|)
  }

  function Appended(l: Log, p: seq<Byte>): Log {
    l.(files := l.files[l.filename := l.Active() + p], size := l.size + |p|)
  }

  /** A log that holds no file stays as it is: a later write opens one. */
  function AfterClose(l: Log): (Log, Outcome) {
    match l.handle
    case NoFile => (l, Ok)
    case Open => (l.(handle := Shut), Ok)
    case Shut => (l, AlreadyClosed)
  }

  lemma RotatedKeepsText(l: Log, name: string)
    requires l.Valid() && l.handle != Shut && (l.filename in l.files ==> l.IsFree(name))
    ensures Rotated(l, name).Valid() && Rotated(l, name).Text() == l.Text()
    ensures AfterRotate(l, name) == (Rotated(l, name), Ok)
    ensures Rotated(l, name).Active() == [] && Rotated(l, name).handle == Open && Rotated(l, name).size == 0
    ensures l.filename in l.files ==>
              Rotated(l, name).backups == l.backups + [name] && Rotated(l, name).files[name] == l.Active()
    ensures l.filename !in l.files ==> Rotated(l, name).backups == l.backups
  {
    var r := Rotated(l, name);
    ContentsFrame(l.files, r.files, l.backups);
    if l.filename in l.files {
      assert r.backups[..|l.backups|] == l.backups;
      assert r.files[name] == l.Active();
      assert Contents(r.files, r.backups) == Contents(l.files, l.backups) + l.Active();
    }
  }

  lemma PreparedKeepsText(l: Log, n: nat, name: string)
    requires l.Valid() && l.handle != Shut && n <= l.Limit() && (Rotates(l, n) && l.filename in l.files ==> l.IsFree(name))
    ensures var r := Prepared(l, n, name);
            && r.Valid() && r.handle == Open && r.Text() == l.Text()
            && r.Active() == (if Rotates(l, n) then [] else l.Active())
            && |r.Active()| + n <= l.Limit()
  {
    if Rotates(l, n) {
      RotatedKeepsText(l, name);
    } else {
      ContentsFrame(l.files, Prepared(l, n, name).files, l.backups);
    }
  }

  lemma AppendedText(l: Log, p: seq<Byte>)
    requires l.Valid() && l.handle == Open && |l.Active()| + |p| <= l.Limit()
    ensures Appended(l, p).Valid() && Appended(l, p).Active() == l.Active() + p
    ensures Appended(l, p).Text() == l.Text() + p
  {
    ContentsFrame(l.files, Appended(l, p).files, l.backups);
    var before, active := Contents(l.files, l.backups), l.Active();
    assert before + (active + p) == (before + active) + p;
  }

  /** A write is put, whole, at the end of the text and at the end of one file; or it is refused,
      and nothing changes. It is refused exactly when it exceeds the limit or the log was closed. */
  lemma WriteAppends(l: Log, p: seq<Byte>, name: string)
    requires l.Valid() && StampedOp(l, WriteOp(p, name))
    ensures var (l', outcome) := AfterWrite(l, p, name);
            && l'.Valid()
            && (outcome == Ok <==> |p| <= l.Limit() && l.handle != Shut)
            && (outcome == Ok ==> l'.Text() == l.Text() + p && l'.handle == Open)
            && (outcome == Ok ==> l'.Active() == (if Rotates(l, |p|) then [] else l.Active()) + p)
            && (outcome != Ok ==> l' == l)
  {
    if |p| <= l.Limit() && l.handle != Shut {
      PreparedKeepsText(l, |p|, name);
      AppendedText(Prepared(l, |p|, name), p);
    }
  }

  /** Where a write goes. A file that is open takes it unless it would exceed the limit; a file
      found at the first write takes it unless it would reach the limit. Otherwise that file becomes
      the next backup, and the write alone is the active file. */
  lemma WriteLands(l: Log, p: seq<Byte>, name: string)
    requires l.Valid()
    ensures var (l', outcome) := AfterWrite(l, p, name);
            var limit := if l.maxSize != 0 then l.maxSize * 1_048_576 else 104_857_600;
            var full := if l.handle == Open then |l.Active()| + |p| > limit else |l.Active()| + |p| >= limit;
            if |p| > limit then l' == l && outcome == TooLarge
            else if l.handle == Shut then l' == l && outcome == AlreadyClosed
            else
              && outcome == Ok && l'.handle == Open && l'.size == |l'.Active()|
              && if full && l.filename in l.files then
                   l'.backups == l.backups + [name] && l'.files == l.files[name := l.Active()][l.filename := p]
                 else
                   l'.backups == l.backups && l'.files == l.files[l.filename := l.Active() + p]
  {
    if |p| <= l.Limit() && l.handle != Shut {
      var r := Prepared(l, |p|, name);
      assert [] + p == p;
      assert r.Active() == if Rotates(l, |p|) then [] else l.Active();
      assert AfterWrite(l, p, name).0.files == r.files[l.filename := r.Active() + p];
    }
  }

  /** A closed log stays closed: nothing in the directory changes any more, and every operation
      fails. A log that has not opened a file is not closed by Close. */
  lemma {:induction false} ClosedForGood(l: Log, ops: seq<Op>)
    ensures l.handle == Open ==> AfterClose(l) == (l.(handle := Shut), Ok)
    ensures l.handle == NoFile ==> AfterClose(l) == (l, Ok)
    ensures l.handle == Shut ==> Run(l, ops) == l && forall op :: op in ops ==> Step(l, op).1 in {TooLarge, AlreadyClosed}
    decreases ops
  {
    if l.handle == Shut && ops != [] {
      assert Step(l, ops[0]).0 == l;
      ClosedForGood(l, ops[1..]);
      forall op | op in ops
        ensures Step(l, op).1 in {TooLarge, AlreadyClosed}
      {
      }
    }
  }

  // ---------------------------------------------------------------------------
  // Whole runs
  // ---------------------------------------------------------------------------

  datatype Op = WriteOp(p: seq<Byte>, name: string) | RotateOp(name: string) | CloseOp

  function Step(l: Log, op: Op): (Log, Outcome) {
    match op
    case WriteOp(p, name) => AfterWrite(l, p, name)
    case RotateOp(name) => AfterRotate(l, name)
    case CloseOp => AfterClose(l)
  }

  /** What an operation adds to the text. */
  function Accepted(l: Log, op: Op): seq<Byte> {
    if op.WriteOp? && Step(l, op).1 == Ok then op.p else []
  }

  function Run(l: Log, ops: seq<Op>): Log
    decreases ops
  {
    if ops == [] then l else Run(Step(l, ops[0]).0, ops[1..])
  }

  function AllAccepted(l: Log, ops: seq<Op>): seq<Byte>
    decreases ops
  {
    if ops == [] then [] else Accepted(l, ops[0]) + AllAccepted(Step(l, ops[0]).0, ops[1..])
  }

  /** No rotation of the run meets a name that is taken. */
  predicate Stamped(l: Log, ops: seq<Op>)
    decreases ops
  {
    ops == [] || (StampedOp(l, ops[0]) && Stamped(Step(l, ops[0]).0, ops[1..]))
  }

  predicate StampedOp(l: Log, op: Op) {
    match op
    case WriteOp(p, name) =>
      |p| <= l.Limit() && Rotates(l, |p|) && l.filename in l.files ==> l.IsFree(name)
    case RotateOp(name) =>
      l.handle != Shut && l.filename in l.files ==> l.IsFree(name)
    case CloseOp => true
  }

  lemma StepKeepsText(l: Log, op: Op)
    requires l.Valid() && StampedOp(l, op)
    ensures Step(l, op).0.Valid() && Step(l, op).0.Text() == l.Text() + Accepted(l, op)
    ensures Step(l, op).0.Limit() == l.Limit() && Step(l, op).0.filename == l.filename
  {
    match op {
    case WriteOp(p, name) => WriteAppends(l, p, name);
    case RotateOp(name) =>
      if l.handle != Shut {
        RotatedKeepsText(l, name);
      }
    case CloseOp =>
    }
    assert l.Text() + [] == l.Text();
  }

  lemma Joined(a: seq<Byte>, b: seq<Byte>, c: seq<Byte>)
    ensures (a + b) + c == a + (b + c)
  {
  }

  /** Over every run, the text is the one there was at the beginning and then the accepted writes. */
  lemma {:induction false} RunKeepsText(l: Log, ops: seq<Op>)
    requires l.Valid() && Stamped(l, ops)
    ensures Run(l, ops).Valid() && Run(l, ops).Text() == l.Text() + AllAccepted(l, ops)
    decreases ops
  {
    if ops == [] {
      assert l.Text() + [] == l.Text();
    } else {
      var l' := Step(l, ops[0]).0;
      StepKeepsText(l, ops[0]);
      RunKeepsText(l', ops[1..]);
      Joined(l.Text(), Accepted(l, ops[0]), AllAccepted(l', ops[1..]));
    }
  }

  /** A file above the limit has been there before, under its own name or another. */
  ghost predicate NoNewAbove(files: Files, files': Files, limit: nat) {
    forall name :: name in files' ==>
      |files'[name]| <= limit || exists was :: was in files && files[was] == files'[name]
  }

  lemma StepKeepsLimit(l: Log, op: Op)
    requires l.Valid()
    ensures NoNewAbove(l.files, Step(l, op).0.files, l.Cap())
  {
    var l' := Step(l, op).0;
    forall name | name in l'.files && |l'.files[name]| > l.Cap()
      ensures exists was :: was in l.files && l.files[was] == l'.files[name]
    {
      if name in l.files && l.files[name] == l'.files[name] {
      } else {
        assert l.filename in l.files && l.files[l.filename] == l'.files[name];
      }
    }
  }

  lemma {:induction false} RunKeepsLimit(l: Log, ops: seq<Op>)
    requires l.Valid() && Stamped(l, ops)
    ensures NoNewAbove(l.files, Run(l, ops).files, l.Cap())
    decreases ops
  {
    if ops != [] {
      var l' := Step(l, ops[0]).0;
      StepKeepsText(l, ops[0]);
      StepKeepsLimit(l, ops[0]);
      RunKeepsLimit(l', ops[1..]);
    }
  }

  // ---------------------------------------------------------------------------
  // The object
  // ---------------------------------------------------------------------------

  class LogFileRollover {
    const filename: string
    const maxSize: int
    var files: Files
    var file: Handle
    var size: int
    ghost var backups: seq<string>
    var started: bool            // the goroutine that retires backups
    var signalled: bool          // something was sent on its channel, of capacity one
    var stopped: bool            // its context is cancelled
    var channelClosed: bool

    ghost function View(): Log
      reads this
    {
      Log(filename, maxSize, files, backups, file, size)
    }

    /** The goroutine is started with a file and stopped, and its channel closed, with it. */
    ghost predicate GoroutineValid()
      reads this
    {
      (started ==> file != NoFile) && stopped == channelClosed == (started && file == Shut)
    }

    constructor (filename: string, maxSize: int, files: Files)
      ensures View() == Log(filename, maxSize, files, [], NoFile, 0) && View().Valid()
      ensures GoroutineValid() && !started
    {
      this.filename, this.maxSize, this.files := filename, maxSize, files;
      file, size, backups := NoFile, 0, [];
      started, signalled, stopped, channelClosed := false, false, false, false;
    }

    method MaxFileSize() returns (limit: int)
      ensures limit == View().Limit()
    {
      limit := if maxSize != 0 then maxSize * MEGABYTE else DEFAULT_MAX_FILE_SIZE;
    }

    method CloseFile() returns (outcome: Outcome)
      modifies `file
      ensures outcome == if old(file) == Shut then AlreadyClosed else Ok
      ensures file == if old(file) == NoFile then NoFile else Shut
    {
      outcome := if file == Shut then AlreadyClosed else Ok;
      if file == Open {
        file := Shut;
      }
    }

    method OpenNew(name: string)
      requires filename in files ==> View().IsFree(name)
      modifies `files, `file, `size, `backups
      ensures View() == Rotated(old(View()), name)
    {
      if filename in files {
        var content := files[filename];
        files := (files - {filename})[name := content];
        backups := backups + [name];
        ghost var renamed := old(files)[name := content];
        assert files[filename := []] == renamed[filename := []];
      }
      files := files[filename := []];
      file, size := Open, 0;
    }

    /** Nothing is ever sent on the closed channel. */
    method Rollover()
      requires !channelClosed
      modifies `started, `signalled
      ensures started && signalled
    {
      if !started {
        started, signalled := true, false;
      }
      signalled := true;
    }

    method RotateLocked(name: string) returns (outcome: Outcome)
      requires GoroutineValid()
      requires file != Shut && filename in files ==> View().IsFree(name)
      modifies this
      ensures GoroutineValid()
      ensures (View(), outcome) == AfterRotate(old(View()), name)
      ensures outcome == Ok ==> started && signalled
    {
      outcome := CloseFile();
      if outcome == Ok {
        OpenNew(name);
        Rollover();
      }
    }

    method Rotate(name: string) returns (outcome: Outcome)
      requires GoroutineValid()
      requires StampedOp(View(), RotateOp(name))
      modifies this
      ensures GoroutineValid()
      ensures (View(), outcome) == AfterRotate(old(View()), name)
      ensures outcome == Ok ==> started && signalled
    {
      outcome := RotateLocked(name);
    }

    method TryOpenOrCreateFile(n: nat, name: string)
      requires GoroutineValid()
      requires file == NoFile && n <= View().Limit()
      requires Rotates(View(), n) && filename in files ==> View().IsFree(name)
      modifies this
      ensures GoroutineValid()
      ensures View() == Prepared(old(View()), n, name)
    {
      if filename !in files {
        OpenNew(name);
        return;
      }
      var limit := MaxFileSize();
      if |files[filename]| + n >= limit {
        var _ := RotateLocked(name);
        return;
      }
      file, size := Open, |files[filename]|;
      assert files == files[filename := files[filename]];
      Rollover();
    }

    /** The file that a write of `n` bytes goes to; an error when the log was closed. */
    method Prepare(n: nat, name: string) returns (outcome: Outcome)
      requires GoroutineValid()
      requires View().Valid() && n <= View().Limit()
      requires Rotates(View(), n) && filename in files ==> View().IsFree(name)
      modifies this
      ensures GoroutineValid()
      ensures outcome == if old(file) == Shut then AlreadyClosed else Ok
      ensures View() == if old(file) == Shut then old(View()) else Prepared(old(View()), n, name)
    {
      if file == NoFile {
        PreparedKeepsText(View(), n, name);
        TryOpenOrCreateFile(n, name);
      }
      var limit := MaxFileSize();
      if n + size > limit {
        outcome := RotateLocked(name);
      } else {
        outcome := if file == Shut then AlreadyClosed else Ok;
        assert filename in old(files) ==> old(files)[filename := old(files)[filename]] == old(files);
      }
    }

    method Write(p: seq<Byte>, name: string) returns (n: nat, outcome: Outcome)
      requires GoroutineValid()
      requires View().Valid() && StampedOp(View(), WriteOp(p, name))
      modifies this
      ensures GoroutineValid()
      ensures (View(), outcome) == AfterWrite(old(View()), p, name)
      ensures n == if outcome == Ok then |p| else 0
    {
      var limit := MaxFileSize();
      if |p| > limit {
        return 0, TooLarge;
      }
      outcome := Prepare(|p|, name);
      if outcome != Ok {
        return 0, outcome;
      }
      files := files[filename := files[filename] + p];
      size := size + |p|;
      n := |p|;
    }

    /** `close`: the goroutine that was started is stopped, its channel closed once. */
    method Close() returns (outcome: Outcome)
      requires GoroutineValid()
      modifies `file, `stopped, `channelClosed
      ensures GoroutineValid()
      ensures (View(), outcome) == AfterClose(old(View()))
      ensures outcome == Ok && started ==> !old(channelClosed) && stopped && channelClosed
    {
      outcome := CloseFile();
      if outcome == Ok && started {
        stopped := true;
        assert !channelClosed;
        channelClosed := true;
      }
    }
  }
}
