/** The names of log backups, `common/logger/log_rollover.go:397-470`. Names are base names in the
    one directory of the log. */
module LogNames {

  import opened Basics

  /** Milliseconds to and from the text in a backup's name. */
  datatype Clock = Clock(format: int -> string, parse: string -> Option<int>)

  /** What the layout `2006-01-02T15-04-05.000` has to guarantee: a text that is printed, and one
      that is read, ends in a digit. Nothing is said of what a text is read as: an instant behind
      the year 9999 is not read back, and neither is one whose local time is repeated when
      daylight saving ends. */
  ghost predicate Lawful(c: Clock) {
    && (forall t :: EndsInDigit(c.format(t)))
    && (forall s :: c.parse(s).Some? ==> EndsInDigit(s))
  }

  predicate EndsInDigit(s: string) {
    s != [] && '0' <= s[|s| - 1] <= '9'
  }

  const GZ := ".gz"

  predicate HasPrefix(s: string, prefix: string) {
    |prefix| <= |s| && s[..|prefix|] == prefix
  }

  predicate HasSuffix(s: string, suffix: string) {
    |suffix| <= |s| && s[|s| - |suffix|..] == suffix
  }

  function TrimSuffix(s: string, suffix: string): string {
    if HasSuffix(s, suffix) then s[..|s| - |suffix|] else s
  }

  /** `filepath.Ext`: what begins at the last dot. */
  function Ext(name: string): (ext: string)
    ensures HasSuffix(name, ext)
    ensures ext == "" || ext[0] == '.'
    ensures forall i :: 0 < i < |ext| ==> ext[i] != '.'
    ensures '.' in name <==> ext != ""
  {
    if name == "" then ""
    else
      var last := |name| - 1;
      var ext := Ext(name[..last]);
      if name[last] == '.' then "."
      else if ext == "" then ""
      else ext + [name[last]]
  }

  function Stem(filename: string): string {
    TrimSuffix(filename, Ext(filename))
  }

  function Prefix(filename: string): string {
    Stem(filename) + "_"
  }

  /** `getBackupNameByTime`. */
  function BackupName(filename: string, stamp: string): string {
    Stem(filename) + "_" + stamp + Ext(filename)
  }

  /** The name without the mark of compression: a backup and its compressed form share it. */
  function BaseName(name: string): string {
    TrimSuffix(name, GZ)
  }

  lemma BaseOfZipped(name: string)
    ensures BaseName(name + GZ) == name && HasSuffix(name + GZ, GZ)
  {
    assert (name + GZ)[|name|..] == GZ;
    assert (name + GZ)[..|name|] == name;
  }

  // ---------------------------------------------------------------------------
  // Reading a name
  // ---------------------------------------------------------------------------

  /** Taking the text between prefix and suffix panics when the two overlap in the name. */
  datatype FileTime = Panics | NotABackup | At(time: int)

  /** `timeFromFileName`. */
  function TimeFromFileName(c: Clock, name: string, prefix: string, ext: string): FileTime {
    if !HasPrefix(name, prefix) then NotABackup
    else if !HasSuffix(name, ext) then NotABackup
    else if |prefix| > |name| - |ext| then Panics
    else
      match c.parse(name[|prefix|..|name| - |ext|])
      case Some(t) => At(t)
      case None => NotABackup
  }

  /** How `loadFileList` reads a directory entry: as a plain backup, then as a compressed one. */
  function TimeOf(c: Clock, filename: string, name: string): FileTime {
    var plain := TimeFromFileName(c, name, Prefix(filename), Ext(filename));
    if plain != NotABackup then plain
    else TimeFromFileName(c, name, Prefix(filename), Ext(filename) + GZ)
  }

  /** Some end of `prefix` is a beginning of `ext`. */
  predicate Overlap(prefix: string, ext: string) {
    exists k :: 1 <= k <= |prefix| && OverlapAt(prefix, ext, k)
  }

  predicate OverlapAt(prefix: string, ext: string, k: nat)
    requires k <= |prefix|
  {
    k <= |ext| && prefix[|prefix| - k..] == ext[..k]
  }

  lemma OverlapCanPanic(c: Clock, prefix: string, ext: string) returns (name: string)
    requires Overlap(prefix, ext)
    ensures TimeFromFileName(c, name, prefix, ext) == Panics
  {
    var k :| 1 <= k <= |prefix| && OverlapAt(prefix, ext, k);
    name := prefix + ext[k..];
    assert name == prefix[..|prefix| - k] + ext by {
      assert prefix == prefix[..|prefix| - k] + prefix[|prefix| - k..];
      assert ext == ext[..k] + ext[k..];
    }
  }

  lemma PanicShowsOverlap(c: Clock, name: string, prefix: string, ext: string)
    requires TimeFromFileName(c, name, prefix, ext) == Panics
    ensures Overlap(prefix, ext)
  {
    var k := |prefix| + |ext| - |name|;
    assert k <= |prefix| && k <= |ext|;
    assert prefix[|prefix| - k..] == name[|name| - |ext|..|prefix|] == ext[..k];
    assert OverlapAt(prefix, ext, k);
  }

  /** There is a name that makes the reading panic if and only if prefix and extension can overlap. */
  lemma PanicsIffOverlap(c: Clock, prefix: string, ext: string)
    ensures (exists name :: TimeFromFileName(c, name, prefix, ext) == Panics) <==> Overlap(prefix, ext)
  {
    if Overlap(prefix, ext) {
      var _ := OverlapCanPanic(c, prefix, ext);
    }
    forall name | TimeFromFileName(c, name, prefix, ext) == Panics
      ensures Overlap(prefix, ext)
    {
      PanicShowsOverlap(c, name, prefix, ext);
    }
  }

  lemma OverlapHasLast(prefix: string, ext: string)
    requires Overlap(prefix, ext)
    ensures prefix[|prefix| - 1] in ext
  {
    var k :| 1 <= k <= |prefix| && OverlapAt(prefix, ext, k);
    assert prefix[|prefix| - k..][k - 1] == ext[..k][k - 1];
  }

  /** The second reading adds nothing that is fatal: the prefix ends in an underscore. */
  lemma ZippedOverlap(filename: string)
    ensures Overlap(Prefix(filename), Ext(filename) + GZ) <==> Overlap(Prefix(filename), Ext(filename))
  {
    var prefix, ext, zipped := Prefix(filename), Ext(filename), Ext(filename) + GZ;
    assert prefix[|prefix| - 1] == '_';
    forall k: nat | 1 <= k <= |prefix|
      ensures OverlapAt(prefix, zipped, k) <==> OverlapAt(prefix, ext, k)
    {
      ZippedOverlapAt(prefix, ext, zipped, k);
    }
  }

  lemma ZippedOverlapAt(prefix: string, ext: string, zipped: string, k: nat)
    requires 1 <= k <= |prefix| && prefix[|prefix| - 1] == '_' && zipped == ext + GZ
    ensures OverlapAt(prefix, zipped, k) <==> OverlapAt(prefix, ext, k)
  {
    assert prefix[|prefix| - k..][k - 1] == '_';
    if k <= |ext| {
      assert zipped[..k] == ext[..k];
    } else if k <= |zipped| {
      assert zipped[..k][k - 1] == GZ[k - 1 - |ext|];
    }
  }

  /** Some directory entry is fatal to the listing if and only if an end of the log's prefix is a
      beginning of its extension. */
  lemma FatalNameIffOverlap(c: Clock, filename: string)
    ensures (exists name :: TimeOf(c, filename, name) == Panics) <==> Overlap(Prefix(filename), Ext(filename))
  {
    var prefix, ext := Prefix(filename), Ext(filename);
    ZippedOverlap(filename);
    if Overlap(prefix, ext) {
      var name := OverlapCanPanic(c, prefix, ext);
      assert TimeOf(c, filename, name) == Panics;
    }
    forall name | TimeOf(c, filename, name) == Panics
      ensures Overlap(prefix, ext)
    {
      if TimeFromFileName(c, name, prefix, ext) == Panics {
        PanicShowsOverlap(c, name, prefix, ext);
      } else {
        PanicShowsOverlap(c, name, prefix, ext + GZ);
      }
    }
  }

  /** So with an extension without an underscore no name is ever fatal. */
  lemma NoUnderscoreNoPanic(c: Clock, filename: string, name: string)
    requires '_' !in Ext(filename)
    ensures TimeOf(c, filename, name) != Panics
  {
    if Overlap(Prefix(filename), Ext(filename)) {
      OverlapHasLast(Prefix(filename), Ext(filename));
    }
    FatalNameIffOverlap(c, filename);
  }

  lemma OverlapHasFirst(prefix: string, ext: string)
    requires Overlap(prefix, ext)
    ensures ext != "" && ext[0] in prefix
  {
    var k :| 1 <= k <= |prefix| && OverlapAt(prefix, ext, k);
    assert prefix[|prefix| - k] == prefix[|prefix| - k..][0] == ext[..k][0];
  }

  /** An underscore in the extension does no harm when it is the name's only dot that begins it. */
  lemma OneDotNoPanic(c: Clock, filename: string, name: string)
    requires '.' !in Stem(filename)
    ensures TimeOf(c, filename, name) != Panics
  {
    if Overlap(Prefix(filename), Ext(filename)) {
      OverlapHasFirst(Prefix(filename), Ext(filename));
    }
    FatalNameIffOverlap(c, filename);
  }

  /** A log whose name does make a directory entry fatal: `x.b.b_` beside a file `x.b_`. */
  lemma OverlapExists(c: Clock)
    ensures Ext("x.b.b_") == ".b_" && Prefix("x.b.b_") == "x.b_"
    ensures TimeOf(c, "x.b.b_", "x.b_") == Panics
  {
    assert Ext("x.b.b_"[..5]) == ".b" by {
      assert "x.b.b_"[..5][..4] == "x.b.";
      assert Ext("x.b.") == ".";
      assert "x.b.b_"[..5][4] == 'b';
    }
  }

  // ---------------------------------------------------------------------------
  // Round trips
  // ---------------------------------------------------------------------------

  lemma StemAndExt(filename: string)
    ensures filename == Stem(filename) + Ext(filename)
  {
  }

  lemma ReadBetween(c: Clock, prefix: string, text: string, ext: string)
    ensures TimeFromFileName(c, prefix + text + ext, prefix, ext) ==
            match c.parse(text) case Some(t) => At(t) case None => NotABackup
  {
    var name := prefix + text + ext;
    assert name == prefix + (text + ext);
    assert name[|prefix|..|name| - |ext|] == text;
  }

  /** A backup's name is read as the time its stamp is read as, so it is read back as the time it
      was made from exactly when the clock reads that time back; of two times that are printed
      alike, one at most is. */
  lemma BackupRoundTrip(c: Clock, filename: string, t: int)
    requires Lawful(c)
    ensures TimeOf(c, filename, BackupName(filename, c.format(t))) ==
            match c.parse(c.format(t)) case Some(u) => At(u) case None => NotABackup
    ensures forall u :: u != t && c.format(u) == c.format(t)
              && TimeOf(c, filename, BackupName(filename, c.format(t))) == At(t)
              ==> TimeOf(c, filename, BackupName(filename, c.format(u))) != At(u)
  {
    var text, name := c.format(t), BackupName(filename, c.format(t));
    var prefix, ext := Prefix(filename), Ext(filename);
    assert name == prefix + text + ext;
    ReadBetween(c, prefix, text, ext);
    if c.parse(text).None? {
      StampIsNotZipped(c, prefix, text, ext, name);
    }
  }

  /** A name with an unreadable stamp is not read as a compressed backup either. */
  lemma StampIsNotZipped(c: Clock, prefix: string, text: string, ext: string, name: string)
    requires EndsInDigit(text) && name == prefix + text + ext
    requires ext == "" || (ext[0] == '.' && forall i :: 0 < i < |ext| ==> ext[i] != '.')
    ensures TimeFromFileName(c, name, prefix, ext + GZ) == NotABackup
  {
    if HasSuffix(name, ext + GZ) {
      ZippedTextEnd(prefix + text, text, ext, name);
    }
  }

  lemma ZippedTextEnd(head: string, text: string, ext: string, name: string)
    requires name == head + ext && text != [] && HasSuffix(head, text) && HasSuffix(name, ext + GZ)
    requires ext == "" || (ext[0] == '.' && forall i :: 0 < i < |ext| ==> ext[i] != '.')
    ensures text[|text| - 1] == 'z'
  {
    var zipped := ext + GZ;
    var start := |name| - |zipped|;
    assert head[|head| - 1] == name[start + 2] == name[start..][2] == zipped[2];
    if ext != "" {
      BaseOfZipped(ext);
      SuffixOfSuffix(name, zipped, GZ);
      ExtOfGz(name, ext);
    }
    assert head[|head| - |text|..][|text| - 1] == 'z';
  }

  lemma ExtOfGz(name: string, ext: string)
    requires HasSuffix(name, GZ) && HasSuffix(name, ext)
    requires ext != "" && ext[0] == '.' && forall i :: 0 < i < |ext| ==> ext[i] != '.'
    ensures ext == GZ
  {
    var stem := name[..|name| - 3];
    assert name == stem + GZ;
    ExtOfZipped(stem, ext, name);
  }

  lemma LongerSuffix(name: string, longer: string, shorter: string)
    requires HasSuffix(name, longer) && HasSuffix(name, shorter) && shorter != ""
    ensures |longer| > |shorter| ==> longer[|longer| - |shorter|] == shorter[0]
  {
    if |longer| > |shorter| {
      assert longer[|longer| - |shorter|] == name[|name| - |shorter|];
    }
  }

  /** What the names look like: of `x.log`, backups are `x_<stamp>.log`, and `x_<stamp>.log.gz` when
      they are compressed. */
  lemma NamesLookLike(stem: string, ext: string, stamp: string)
    requires ext != "" && ext[0] == '.' && forall i :: 0 < i < |ext| ==> ext[i] != '.'
    ensures Ext(stem + ext) == ext && Prefix(stem + ext) == stem + "_"
    ensures BackupName(stem + ext, stamp) == stem + "_" + stamp + ext
    ensures BaseName(stem + "_" + stamp + ext + ".gz") == stem + "_" + stamp + ext
  {
    var name, found := stem + ext, Ext(stem + ext);
    assert HasSuffix(name, ext) && name[..|stem|] == stem;
    assert '.' == name[|stem|];
    LongerSuffix(name, ext, found);
    LongerSuffix(name, found, ext);
    assert |found| == |ext|;
    BaseOfZipped(stem + "_" + stamp + ext);
  }

  /** And no other name is taken for a backup: it has the log's prefix, then a text that the clock
      reads, and then the extension, with or without the mark of compression. */
  lemma OnlyBackupsAreRead(c: Clock, filename: string, name: string) returns (stamp: string)
    requires TimeOf(c, filename, name).At?
    ensures c.parse(stamp) == Some(TimeOf(c, filename, name).time)
    ensures name == Prefix(filename) + stamp + Ext(filename) || name == Prefix(filename) + stamp + Ext(filename) + ".gz"
  {
    var prefix, ext := Prefix(filename), Ext(filename);
    var plain := TimeFromFileName(c, name, prefix, ext);
    var tail := if plain != NotABackup then ext else ext + GZ;
    stamp := name[|prefix|..|name| - |tail|];
    assert name == prefix + stamp + tail;
    assert prefix + stamp + (ext + GZ) == prefix + stamp + ext + GZ;
  }

  /** Compressing a backup keeps its time. */
  lemma CompressedKeepsTime(c: Clock, filename: string, name: string)
    requires Lawful(c) && TimeOf(c, filename, name).At? && !HasSuffix(name, GZ)
    ensures TimeOf(c, filename, name + GZ) == TimeOf(c, filename, name)
    ensures BaseName(name + GZ) == BaseName(name) == name
  {
    var prefix, ext := Prefix(filename), Ext(filename);
    var zipped, zippedExt := name + GZ, ext + GZ;
    NotZipped(name, ext, zippedExt);
    assert TimeFromFileName(c, name, prefix, ext) == TimeOf(c, filename, name);
    ZippedParts(name, prefix, ext, zipped, zippedExt);
    ZippedTime(c, name, prefix, ext, zipped, zippedExt);
    PlainReadingFails(c, name, prefix, ext);
  }

  lemma ZippedTime(c: Clock, name: string, prefix: string, ext: string, zipped: string, zippedExt: string)
    requires zipped == name + GZ && zippedExt == ext + GZ
    requires HasPrefix(zipped, prefix) && HasSuffix(zipped, zippedExt) && TimeFromFileName(c, name, prefix, ext).At?
    ensures TimeFromFileName(c, zipped, prefix, zippedExt) == TimeFromFileName(c, name, prefix, ext)
  {
    assert name[|prefix|..|name| - |ext|] == zipped[|prefix|..|zipped| - |zippedExt|];
  }

  lemma SuffixOfSuffix(name: string, middle: string, suffix: string)
    requires HasSuffix(name, middle) && HasSuffix(middle, suffix)
    ensures HasSuffix(name, suffix)
  {
    assert name[|name| - |suffix|..] == middle[|middle| - |suffix|..];
  }

  lemma NotZipped(name: string, ext: string, zippedExt: string)
    requires !HasSuffix(name, GZ) && zippedExt == ext + GZ
    ensures !HasSuffix(name, zippedExt)
  {
    BaseOfZipped(ext);
    if HasSuffix(name, zippedExt) {
      SuffixOfSuffix(name, zippedExt, GZ);
    }
  }

  lemma ZippedParts(name: string, prefix: string, ext: string, zipped: string, zippedExt: string)
    requires HasPrefix(name, prefix) && HasSuffix(name, ext) && zipped == name + GZ && zippedExt == ext + GZ
    ensures HasPrefix(zipped, prefix) && HasSuffix(zipped, zippedExt)
    ensures HasSuffix(zipped, GZ) && TrimSuffix(zipped, GZ) == name
  {
    assert zipped[..|prefix|] == name[..|prefix|];
    assert zipped[|zipped| - |zippedExt|..] == name[|name| - |ext|..] + GZ;
    assert zipped[|zipped| - 3..] == GZ;
    assert zipped[..|name|] == name;
  }

  /** A compressed backup is not taken for a plain one. */
  lemma PlainReadingFails(c: Clock, name: string, prefix: string, ext: string)
    requires Lawful(c) && !HasSuffix(name, GZ) && HasPrefix(name, prefix) && HasSuffix(name, ext)
    requires |prefix| + |ext| <= |name|
    requires ext == "" || (ext[0] == '.' && forall i :: 0 < i < |ext| ==> ext[i] != '.')
    ensures TimeFromFileName(c, name + GZ, prefix, ext) == NotABackup
  {
    var zipped := name + GZ;
    if ext == "" {
      var text := zipped[|prefix|..|zipped| - |ext|];
      assert text[|text| - 1] == 'z';
    } else {
      ExtIsNotGz(name, ext, zipped);
    }
  }

  lemma ExtOfZipped(name: string, ext: string, zipped: string)
    requires zipped == name + GZ && HasSuffix(zipped, ext)
    requires ext != "" && ext[0] == '.' && forall i :: 0 < i < |ext| ==> ext[i] != '.'
    ensures ext == GZ
  {
    var n := |zipped| - |ext|;
    assert forall i :: 0 <= i < |ext| ==> zipped[n..][i] == ext[i] == zipped[n + i];
    assert zipped[|name|] == '.' && zipped[|name| + 1] == 'g' && zipped[|name| + 2] == 'z';
    assert zipped[n] == '.';
    assert n <= |name|;
    assert ext[|name| - n] == '.';
    assert n == |name|;
  }

  lemma ExtIsNotGz(name: string, ext: string, zipped: string)
    requires zipped == name + GZ && !HasSuffix(name, GZ) && HasSuffix(name, ext)
    requires ext != "" && ext[0] == '.' && forall i :: 0 < i < |ext| ==> ext[i] != '.'
    ensures !HasSuffix(zipped, ext)
  {
    if HasSuffix(zipped, ext) {
      ExtOfZipped(name, ext, zipped);
    }
  }

  /** The log that is being written to is never taken for a backup. */
  lemma ActiveIsNotABackup(c: Clock, filename: string)
    ensures TimeOf(c, filename, filename) == NotABackup
  {
    StemAndExt(filename);
    var stem, prefix, ext := Stem(filename), Prefix(filename), Ext(filename);
    assert prefix[|stem|] == '_' && |prefix| == |stem| + 1;
    if ext != "" {
      assert filename[|stem|] == ext[0] == '.';
      assert filename[..|prefix|][|stem|] == '.';
    }
  }
}
