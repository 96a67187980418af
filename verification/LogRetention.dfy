/** Retiring old backups, `common/logger/log_rollover.go:305-443`. Times are milliseconds. */
module LogRetention {

  import opened Basics
  import opened LogNames
  import opened Seqs
  import LogRollover

  type Files = LogRollover.Files

  const DAY := 24 * 3600 * 1000

  /** What the retention needs to know of names: the time of a backup, the name that its plain and
      its compressed form share, and its compressed form. */
  datatype Naming = Naming(
    time: string -> Option<int>,
    base: string -> string,
    zipped: string -> string,
    isZipped: string -> bool)

  ghost predicate Consistent(n: Naming) {
    && (forall name :: n.base(n.zipped(name)) == name && n.isZipped(n.zipped(name)))
    && (forall name :: if n.isZipped(name) then n.zipped(n.base(name)) == name else n.base(name) == name)
    && (forall name :: n.time(name).Some? && !n.isZipped(name) ==> n.time(n.zipped(name)) == n.time(name))
  }

  function NamingOf(c: Clock, filename: string): Naming {
    Naming(name => match TimeOf(c, filename, name) case At(t) => Some(t) case _ => None,
           BaseName,
           name => name + GZ,
           name => HasSuffix(name, GZ))
  }

  /** The names of the log have these properties, and the active file is no backup. */
  lemma LogNamesAreConsistent(c: Clock, filename: string)
    requires Lawful(c)
    ensures Consistent(NamingOf(c, filename)) && NamingOf(c, filename).time(filename) == None
  {
    var n := NamingOf(c, filename);
    ActiveIsNotABackup(c, filename);
    forall name
      ensures n.base(n.zipped(name)) == name && n.isZipped(n.zipped(name))
    {
      BaseOfZipped(name);
    }
    forall name
      ensures if n.isZipped(name) then n.zipped(n.base(name)) == name else n.base(name) == name
    {
    }
    forall name | n.time(name).Some? && !n.isZipped(name)
      ensures n.time(n.zipped(name)) == n.time(name)
    {
      CompressedKeepsTime(c, filename, name);
    }
  }

  datatype Policy = Policy(
    naming: Naming,
    maxBackups: int,
    maxAge: int,                        // in days
    compress: bool,
    gzip: seq<Byte> -> seq<Byte>)
  {
    predicate IsBackup(name: string) {
      naming.time(name).Some?
    }

    function Time(name: string): int {
      match naming.time(name) case Some(t) => t case None => 0
    }
  }

  // ---------------------------------------------------------------------------
  // What is to be kept
  // ---------------------------------------------------------------------------

  function Backups(p: Policy, files: Files): set<string> {
    set name | name in files && p.IsBackup(name)
  }

  /** The backups after time `t`, plain and compressed form counted once. */
  function NewerBases(p: Policy, files: Files, t: int): set<string> {
    set name | name in Backups(p, files) && p.Time(name) > t :: p.naming.base(name)
  }

  /** Among the newest `maxBackups`. */
  predicate Allowed(p: Policy, files: Files, name: string) {
    |NewerBases(p, files, p.Time(name))| < p.maxBackups
  }

  predicate Expired(p: Policy, now: int, name: string) {
    p.Time(name) < now - p.maxAge * DAY
  }

  predicate Keeps(p: Policy, files: Files, now: int, name: string) {
    (p.maxBackups > 0 ==> Allowed(p, files, name)) && (p.maxAge > 0 ==> !Expired(p, now, name))
  }

  function Kept(p: Policy, files: Files, now: int): set<string> {
    set name | name in files && (p.IsBackup(name) ==> Keeps(p, files, now, name))
  }

  function Zipping(p: Policy, files: Files, now: int): set<string> {
    set name | name in Kept(p, files, now) && p.IsBackup(name) && p.compress && !p.naming.isZipped(name)
  }

  function ZippedNames(p: Policy, names: set<string>): set<string> {
    set name | name in names :: p.naming.zipped(name)
  }

  /** Each of the files `names` replaced by its compressed form, over one that may be there. */
  function Zipped(p: Policy, files: Files, names: set<string>): Files {
    (map name | name in files.Keys - names :: files[name])
    + (map zipped | zipped in ZippedNames(p, names) && p.naming.base(zipped) in files ::
         p.gzip(files[p.naming.base(zipped)]))
  }

  function Restricted(files: Files, names: set<string>): Files {
    map name | name in files && name in names :: files[name]
  }

  /** The directory after one round. */
  function Retained(p: Policy, files: Files, now: int): Files {
    Zipped(p, Restricted(files, Kept(p, files, now)), Zipping(p, files, now))
  }

  /** Two backups have one time only if they are forms of one. */
  predicate DistinctTimes(p: Policy, files: Files) {
    forall m, n :: m in Backups(p, files) && n in Backups(p, files) && p.Time(m) == p.Time(n) ==>
      p.naming.base(m) == p.naming.base(n)
  }

  /** What is in the directory after a round, name by name: the kept files, except those that have
      been compressed, and the compressed ones. */
  lemma RetainedIn(p: Policy, files: Files, now: int, name: string)
    requires Consistent(p.naming)
    ensures var kept, zipping := Kept(p, files, now), Zipping(p, files, now);
            && (name in Retained(p, files, now) <==>
                  (name in kept && name !in zipping) || name in ZippedNames(p, zipping))
            && (name in Retained(p, files, now) ==>
                  Retained(p, files, now)[name] ==
                  if name in ZippedNames(p, zipping) then p.gzip(files[p.naming.base(name)]) else files[name])
  {
  }

  // ---------------------------------------------------------------------------
  // What a round leaves
  // ---------------------------------------------------------------------------

  /** The forms of a backup have one time. */
  lemma SameBaseSameTime(p: Policy, m: string, n: string)
    requires Consistent(p.naming) && p.IsBackup(m) && p.IsBackup(n) && p.naming.base(m) == p.naming.base(n)
    ensures p.Time(m) == p.Time(n)
  {
    var base := p.naming.base(m);
    assert m == base || m == p.naming.zipped(base);
    assert n == base || n == p.naming.zipped(base);
  }

  /** Every backup left is a kept one, or the compressed form of one, with its time. */
  lemma LeftIsKept(p: Policy, files: Files, now: int, name: string) returns (was: string)
    requires Consistent(p.naming) && name in Retained(p, files, now) && p.IsBackup(name)
    ensures Keeps(p, files, now, name)
    ensures was in Backups(p, files) && p.naming.base(was) == p.naming.base(name) && p.Time(was) == p.Time(name)
    ensures p.compress ==> p.naming.isZipped(name)
  {
    RetainedIn(p, files, now, name);
    if name in ZippedNames(p, Zipping(p, files, now)) {
      was :| was in Zipping(p, files, now) && p.naming.zipped(was) == name;
      assert was in Kept(p, files, now);
    } else {
      was := name;
    }
  }

  lemma FewerBases(p: Policy, files: Files, now: int, t: int)
    requires Consistent(p.naming)
    ensures |NewerBases(p, Retained(p, files, now), t)| <= |NewerBases(p, files, t)|
  {
    var files' := Retained(p, files, now);
    forall name | name in Backups(p, files') && p.Time(name) > t
      ensures p.naming.base(name) in NewerBases(p, files, t)
    {
      var was := LeftIsKept(p, files, now, name);
    }
    SubsetIsSmaller(NewerBases(p, files', t), NewerBases(p, files, t));
  }

  lemma NothingToDo(p: Policy, files: Files, now: int)
    requires forall name :: name in Backups(p, files) ==>
               Keeps(p, files, now, name) && (p.compress ==> p.naming.isZipped(name))
    ensures Retained(p, files, now) == files
  {
    assert Kept(p, files, now) == files.Keys by {
      forall name | name in files && p.IsBackup(name)
        ensures Keeps(p, files, now, name)
      {
        assert name in Backups(p, files);
      }
    }
    assert Zipping(p, files, now) == {} by {
      forall name | name in files && p.IsBackup(name) && p.compress
        ensures p.naming.isZipped(name)
      {
        assert name in Backups(p, files);
      }
    }
    assert ZippedNames(p, {}) == {};
  }

  /** At a fixed clock, a second round changes nothing. */
  lemma RetainedIsStable(p: Policy, files: Files, now: int)
    requires Consistent(p.naming)
    ensures Retained(p, Retained(p, files, now), now) == Retained(p, files, now)
  {
    var once := Retained(p, files, now);
    forall name | name in Backups(p, once)
      ensures Keeps(p, once, now, name) && (p.compress ==> p.naming.isZipped(name))
    {
      var _ := LeftIsKept(p, files, now, name);
      FewerBases(p, files, now, p.Time(name));
    }
    NothingToDo(p, once, now);
  }

  /** A round leaves times distinct, so that another one can follow. */
  lemma RoundKeepsDistinctTimes(p: Policy, files: Files, now: int)
    requires Consistent(p.naming) && DistinctTimes(p, files)
    ensures DistinctTimes(p, Retained(p, files, now))
  {
    var left := Backups(p, Retained(p, files, now));
    forall m, n | m in left && n in left && p.Time(m) == p.Time(n)
      ensures p.naming.base(m) == p.naming.base(n)
    {
      var wasM := LeftIsKept(p, files, now, m);
      var wasN := LeftIsKept(p, files, now, n);
    }
  }

  /** Files that are not backups stay as they are. */
  lemma OthersAreUntouched(p: Policy, files: Files, now: int, name: string)
    requires Consistent(p.naming) && !p.IsBackup(name)
    ensures name in Retained(p, files, now) <==> name in files
    ensures name in files ==> Retained(p, files, now)[name] == files[name]
  {
    RetainedIn(p, files, now, name);
    forall was | was in Zipping(p, files, now)
      ensures p.IsBackup(p.naming.zipped(was))
    {
      assert p.naming.time(was).Some?;
    }
  }

  lemma {:induction false} Oldest(p: Policy, names: set<string>) returns (oldest: string)
    requires names != {}
    ensures oldest in names && forall name :: name in names ==> p.Time(oldest) <= p.Time(name)
    decreases names
  {
    oldest :| oldest in names;
    if names != {oldest} {
      var other := Oldest(p, names - {oldest});
      if p.Time(other) < p.Time(oldest) {
        oldest := other;
      }
    }
  }

  /** No more backups than allowed are left, plain and compressed form counted once. */
  lemma NoMoreThanAllowed(p: Policy, files: Files, now: int)
    requires Consistent(p.naming) && DistinctTimes(p, files) && p.maxBackups > 0
    ensures |set name | name in Backups(p, Retained(p, files, now)) :: p.naming.base(name)| <= p.maxBackups
  {
    var left := Backups(p, Retained(p, files, now));
    var bases := set name | name in left :: p.naming.base(name);
    if left != {} {
      var oldest := Oldest(p, left);
      var first := LeftIsKept(p, files, now, oldest);
      forall name | name in left && p.naming.base(name) != p.naming.base(oldest)
        ensures p.naming.base(name) in NewerBases(p, files, p.Time(oldest))
      {
        var was := LeftIsKept(p, files, now, name);
      }
      SubsetIsSmaller(bases - {p.naming.base(oldest)}, NewerBases(p, files, p.Time(oldest)));
    }
  }

  /** A backup is to be left if it is no older than `maxAge` days and fewer than `maxBackups`
      backups, their two forms counted once, are newer. */
  predicate ToBeLeft(p: Policy, files: Files, now: int, name: string) {
    && (p.maxAge > 0 ==> p.Time(name) >= now - p.maxAge * 86_400_000)
    && (p.maxBackups > 0 ==>
          |set n | n in files && p.IsBackup(n) && p.Time(n) > p.Time(name) :: p.naming.base(n)| < p.maxBackups)
  }

  /** A round leaves the backups that are to be left, in compressed form if it compresses, and no
      form of any other one. */
  lemma RoundLeaves(p: Policy, files: Files, now: int, name: string)
    requires Consistent(p.naming) && name in files && p.IsBackup(name)
    ensures var after, zips := Retained(p, files, now), p.compress && !p.naming.isZipped(name);
            if !ToBeLeft(p, files, now, name) then
              name !in after && (!p.naming.isZipped(name) ==> p.naming.zipped(name) !in after)
            else if zips then
              name !in after && p.naming.zipped(name) in after && after[p.naming.zipped(name)] == p.gzip(files[name])
            else
              && name in after
              && (!p.compress || p.naming.base(name) !in files ==> after[name] == files[name])
  {
    var zipped, base := p.naming.zipped(name), p.naming.base(name);
    assert (set n | n in files && p.IsBackup(n) && p.Time(n) > p.Time(name) :: p.naming.base(n))
        == NewerBases(p, files, p.Time(name));
    assert Keeps(p, files, now, name) <==> ToBeLeft(p, files, now, name);
    RetainedIn(p, files, now, name);
    RetainedIn(p, files, now, zipped);
    assert forall was :: p.naming.base(p.naming.zipped(was)) == was;
  }

  /** What is newer than a backup that is left is left too. */
  lemma NewerIsLeft(p: Policy, files: Files, now: int, name: string, newer: string)
    requires name in files && p.IsBackup(name) && ToBeLeft(p, files, now, name)
    requires newer in files && p.IsBackup(newer) && p.Time(newer) >= p.Time(name)
    ensures ToBeLeft(p, files, now, newer)
  {
    SubsetIsSmaller(set n | n in files && p.IsBackup(n) && p.Time(n) > p.Time(newer) :: p.naming.base(n),
                    set n | n in files && p.IsBackup(n) && p.Time(n) > p.Time(name) :: p.naming.base(n));
  }


  // ---------------------------------------------------------------------------
  // The listing
  // ---------------------------------------------------------------------------

  datatype Meta = Meta(name: string, time: int)

  predicate Sorted(metas: seq<Meta>) {
    forall i, j :: 0 <= i < j < |metas| ==> metas[i].time >= metas[j].time
  }

  predicate Distinct(metas: seq<Meta>) {
    forall i, j :: 0 <= i < j < |metas| ==> metas[i].name != metas[j].name
  }

  predicate Timed(p: Policy, metas: seq<Meta>) {
    forall i :: 0 <= i < |metas| ==> metas[i].time == p.Time(metas[i].name)
  }

  function Names(metas: seq<Meta>): set<string> {
    set i | 0 <= i < |metas| :: metas[i].name
  }

  /** Each of the backups `names` once, with its time, the newest first. */
  predicate Lists(p: Policy, metas: seq<Meta>, names: set<string>) {
    Sorted(metas) && Names(metas) == names && Timed(p, metas) && Distinct(metas)
  }

  /** Where a time belongs: behind all that are not older. */
  method Place(metas: seq<Meta>, time: int) returns (k: nat)
    requires Sorted(metas)
    ensures k <= |metas|
    ensures forall i :: 0 <= i < k ==> metas[i].time >= time
    ensures forall i :: k <= i < |metas| ==> metas[i].time < time
  {
    k := |metas|;
    while k > 0 && metas[k - 1].time < time
      invariant k <= |metas| && forall i :: k <= i < |metas| ==> metas[i].time < time
    {
      k := k - 1;
    }
  }

  lemma InsertedNames(metas: seq<Meta>, k: nat, m: Meta)
    requires k <= |metas|
    ensures Names(Inserted(metas, k, m)) == Names(metas) + {m.name}
  {
    var more := Inserted(metas, k, m);
    forall n | n in Names(metas)
      ensures n in Names(more)
    {
      var i :| 0 <= i < |metas| && metas[i].name == n;
      assert more[if i < k then i else i + 1].name == n;
    }
    forall n | n in Names(more)
      ensures n in Names(metas) + {m.name}
    {
      var i :| 0 <= i < |more| && more[i].name == n;
      if i != k {
        assert metas[if i < k then i else i - 1].name == n;
      }
    }
    assert more[k].name == m.name;
  }

  lemma InsertedLists(p: Policy, metas: seq<Meta>, names: set<string>, m: Meta, k: nat)
    requires Lists(p, metas, names) && m.name !in names && m.time == p.Time(m.name) && k <= |metas|
    requires forall i :: 0 <= i < k ==> metas[i].time >= m.time
    requires forall i :: k <= i < |metas| ==> metas[i].time < m.time
    ensures Lists(p, Inserted(metas, k, m), names + {m.name})
  {
    InsertedNames(metas, k, m);
    var more := Inserted(metas, k, m);
    forall i | 0 <= i < |metas|
      ensures metas[i].name != m.name
    {
      assert metas[i].name in Names(metas);
    }
    forall i, j | 0 <= i < j < |more|
      ensures more[i].time >= more[j].time && more[i].name != more[j].name
    {
      assert i < k || i == k || i > k;
    }
  }

  /** `loadFileList`. It fails, by a panic, exactly when some name in the directory makes it. */
  method LoadFileList(p: Policy, c: Clock, filename: string, files: Files) returns (metas: seq<Meta>, panics: bool)
    requires p.naming == NamingOf(c, filename)
    ensures panics <==> exists name :: name in files && TimeOf(c, filename, name) == Panics
    ensures !panics ==> Lists(p, metas, Backups(p, files))
  {
    metas, panics := [], false;
    var todo := files.Keys;
    while todo != {}
      invariant todo <= files.Keys
      invariant Lists(p, metas, Backups(p, files) - todo)
      invariant forall name :: name in files && name !in todo ==> TimeOf(c, filename, name) != Panics
      decreases todo
    {
      var name :| name in todo;
      match TimeOf(c, filename, name) {
        case Panics =>
          return metas, true;
        case NotABackup =>
          assert Backups(p, files) - (todo - {name}) == Backups(p, files) - todo;
        case At(t) =>
          var k := Place(metas, t);
          InsertedLists(p, metas, Backups(p, files) - todo, Meta(name, t), k);
          assert Backups(p, files) - (todo - {name}) == Backups(p, files) - todo + {name};
          metas := Inserted(metas, k, Meta(name, t));
      }
      todo := todo - {name};
    }
  }

  // ---------------------------------------------------------------------------
  // One round
  // ---------------------------------------------------------------------------

  lemma NamesAppend(metas: seq<Meta>, m: Meta)
    ensures Names(metas + [m]) == Names(metas) + {m.name}
  {
    var more := metas + [m];
    assert more == Inserted(metas, |metas|, m);
    InsertedNames(metas, |metas|, m);
  }

  lemma DistinctAppend(metas: seq<Meta>, m: Meta)
    requires Distinct(metas) && m.name !in Names(metas)
    ensures Distinct(metas + [m]) && Names(metas + [m]) == Names(metas) + {m.name}
  {
    NamesAppend(metas, m);
    forall i | 0 <= i < |metas|
      ensures metas[i].name in Names(metas)
    {
    }
  }

  lemma NamesConcat(a: seq<Meta>, b: seq<Meta>)
    ensures Names(a + b) == Names(a) + Names(b)
  {
    forall i | 0 <= i < |b|
      ensures b[i].name in Names(a + b)
    {
      assert (a + b)[|a| + i] == b[i];
    }
    forall i | 0 <= i < |a|
      ensures a[i].name in Names(a + b)
    {
      assert (a + b)[i] == a[i];
    }
  }

  function NamesBefore(metas: seq<Meta>, i: nat): set<string>
    requires i <= |metas|
  {
    set k | 0 <= k < i :: metas[k].name
  }

  lemma NewName(metas: seq<Meta>, i: nat)
    requires Distinct(metas) && i < |metas|
    ensures metas[i].name !in NamesBefore(metas, i)
    ensures NamesBefore(metas, i + 1) == NamesBefore(metas, i) + {metas[i].name}
  {
  }

  function Bases(p: Policy, names: set<string>): set<string> {
    set name | name in names :: p.naming.base(name)
  }

  function Chosen(p: Policy, files: Files, names: set<string>, allowed: bool): set<string> {
    set name | name in names && Allowed(p, files, name) == allowed
  }

  function Aged(p: Policy, now: int, names: set<string>, expired: bool): set<string> {
    set name | name in names && Expired(p, now, name) == expired
  }

  /** The counting loop: of the backups `before`, those `chosen` have been saved, by their bases,
      and as long as there is room these are the bases of all. */
  predicate Counting(p: Policy, before: set<string>, chosen: set<string>, saved: set<string>) {
    && saved == Bases(p, chosen) && |saved| <= p.maxBackups
    && (|saved| < p.maxBackups ==> saved == Bases(p, before))
  }

  /** `before` are the names listed before `name`. */
  predicate ListedBefore(p: Policy, files: Files, before: set<string>, name: string) {
    && before <= Backups(p, files) && name in Backups(p, files) && name !in before
    && (forall n :: n in before ==> p.Time(n) >= p.Time(name))
    && (forall n :: n in Backups(p, files) && p.Time(n) > p.Time(name) ==> n in before)
  }

  lemma ListingIsInOrder(p: Policy, files: Files, metas: seq<Meta>, i: nat)
    requires Lists(p, metas, Backups(p, files)) && i < |metas|
    ensures ListedBefore(p, files, NamesBefore(metas, i), metas[i].name)
  {
    var name := metas[i].name;
    NewName(metas, i);
    assert forall k :: 0 <= k < |metas| ==> metas[k].name in Names(metas);
    forall n | n in Backups(p, files) && p.Time(n) > p.Time(name)
      ensures n in NamesBefore(metas, i)
    {
      assert n in Names(metas);
      var k :| 0 <= k < |metas| && metas[k].name == n;
      assert metas[k].time > metas[i].time;
    }
  }

  predicate Room(p: Policy, saved: set<string>, name: string) {
    p.naming.base(name) in saved || |saved| < p.maxBackups
  }

  /** The loop's decision is the right one. */
  lemma CountDecides(p: Policy, files: Files, before: set<string>, saved: set<string>, name: string)
    requires Consistent(p.naming) && DistinctTimes(p, files)
    requires ListedBefore(p, files, before, name) && Counting(p, before, Chosen(p, files, before, true), saved)
    ensures Allowed(p, files, name) <==> Room(p, saved, name)
  {
    var base, newer := p.naming.base(name), NewerBases(p, files, p.Time(name));
    if base in saved {
      var n :| n in Chosen(p, files, before, true) && p.naming.base(n) == base;
      SameBaseSameTime(p, n, name);
    } else if |saved| < p.maxBackups {
      SubsetIsSmaller(newer, saved);
    } else {
      forall n | n in Chosen(p, files, before, true)
        ensures p.naming.base(n) in newer
      {
        assert p.naming.base(n) in saved;
      }
      SubsetIsSmaller(saved, newer);
    }
  }

  lemma CountingGoesOn(p: Policy, before: set<string>, chosen: set<string>, saved: set<string>, name: string)
    requires Counting(p, before, chosen, saved)
    ensures if Room(p, saved, name)
            then Counting(p, before + {name}, chosen + {name}, saved + {p.naming.base(name)})
            else Counting(p, before + {name}, chosen, saved)
  {
    var base := p.naming.base(name);
    assert Bases(p, before + {name}) == Bases(p, before) + {base};
    assert Bases(p, chosen + {name}) == Bases(p, chosen) + {base};
    assert base in saved ==> saved + {base} == saved;
  }

  lemma ChosenGrows(p: Policy, files: Files, before: set<string>, name: string, allowed: bool)
    ensures Chosen(p, files, before + {name}, allowed) ==
            Chosen(p, files, before, allowed) + if Allowed(p, files, name) == allowed then {name} else {}
  {
  }

  lemma CountingStep(p: Policy, files: Files, metas: seq<Meta>, i: nat, saved: set<string>)
    requires Consistent(p.naming) && DistinctTimes(p, files) && Lists(p, metas, Backups(p, files)) && i < |metas|
    requires Counting(p, NamesBefore(metas, i), Chosen(p, files, NamesBefore(metas, i), true), saved)
    ensures var name, before, after := metas[i].name, NamesBefore(metas, i), NamesBefore(metas, i + 1);
            var room := Room(p, saved, name);
            && name !in before
            && Chosen(p, files, after, room) == Chosen(p, files, before, room) + {name}
            && Chosen(p, files, after, !room) == Chosen(p, files, before, !room)
            && Counting(p, after, Chosen(p, files, after, true), if room then saved + {p.naming.base(name)} else saved)
  {
    var name, before := metas[i].name, NamesBefore(metas, i);
    NewName(metas, i);
    ListingIsInOrder(p, files, metas, i);
    CountDecides(p, files, before, saved, name);
    CountingGoesOn(p, before, Chosen(p, files, before, true), saved, name);
    ChosenGrows(p, files, before, name, true);
    ChosenGrows(p, files, before, name, false);
  }

  /** The counting loop before backup `i` of the listing. */
  ghost predicate Splitting(
    p: Policy, files: Files, metas: seq<Meta>, i: nat, saved: set<string>, remained: seq<Meta>, removed: seq<Meta>)
  {
    && i <= |metas|
    && Counting(p, NamesBefore(metas, i), Names(remained), saved)
    && Names(remained) == Chosen(p, files, NamesBefore(metas, i), true)
    && Names(removed) == Chosen(p, files, NamesBefore(metas, i), false)
    && Timed(p, remained) && Distinct(remained)
  }

  lemma SplittingAdmits(
    p: Policy, files: Files, metas: seq<Meta>, i: nat, saved: set<string>, remained: seq<Meta>, removed: seq<Meta>)
    requires Consistent(p.naming) && DistinctTimes(p, files) && Lists(p, metas, Backups(p, files)) && i < |metas|
    requires Splitting(p, files, metas, i, saved, remained, removed) && Room(p, saved, metas[i].name)
    ensures Splitting(p, files, metas, i + 1, saved + {p.naming.base(metas[i].name)}, remained + [metas[i]], removed)
  {
    CountingStep(p, files, metas, i, saved);
    Admitted(p, remained, metas[i]);
  }

  lemma Admitted(p: Policy, remained: seq<Meta>, m: Meta)
    requires Timed(p, remained) && Distinct(remained) && m.time == p.Time(m.name) && m.name !in Names(remained)
    ensures Timed(p, remained + [m]) && Distinct(remained + [m]) && Names(remained + [m]) == Names(remained) + {m.name}
  {
    DistinctAppend(remained, m);
  }

  lemma SplittingRefuses(
    p: Policy, files: Files, metas: seq<Meta>, i: nat, saved: set<string>, remained: seq<Meta>, removed: seq<Meta>)
    requires Consistent(p.naming) && DistinctTimes(p, files) && Lists(p, metas, Backups(p, files)) && i < |metas|
    requires Splitting(p, files, metas, i, saved, remained, removed) && !Room(p, saved, metas[i].name)
    ensures Splitting(p, files, metas, i + 1, saved, remained, removed + [metas[i]])
  {
    CountingStep(p, files, metas, i, saved);
    NamesAppend(removed, metas[i]);
  }

  /** The loop over MaxBackups: a backup is remembered by its base name, so that its plain and its
      compressed form count once. */
  method SplitByCount(p: Policy, ghost files: Files, metas: seq<Meta>)
    returns (remained: seq<Meta>, removed: seq<Meta>)
    requires p.maxBackups > 0 && Consistent(p.naming) && DistinctTimes(p, files) && Lists(p, metas, Backups(p, files))
    ensures Names(remained) == Chosen(p, files, Names(metas), true)
    ensures Names(removed) == Chosen(p, files, Names(metas), false)
    ensures Timed(p, remained) && Distinct(remained)
  {
    remained, removed := [], [];
    var saved: set<string> := {};
    var i := 0;
    while i < |metas|
      invariant Splitting(p, files, metas, i, saved, remained, removed)
    {
      saved, remained, removed := CountOne(p, files, metas, i, saved, remained, removed);
      i := i + 1;
    }
    assert NamesBefore(metas, i) == Names(metas);
  }

  method CountOne(p: Policy, ghost files: Files, metas: seq<Meta>, i: nat,
                  saved: set<string>, remained: seq<Meta>, removed: seq<Meta>)
    returns (saved': set<string>, remained': seq<Meta>, removed': seq<Meta>)
    requires Consistent(p.naming) && DistinctTimes(p, files) && Lists(p, metas, Backups(p, files)) && i < |metas|
    requires Splitting(p, files, metas, i, saved, remained, removed)
    ensures Splitting(p, files, metas, i + 1, saved', remained', removed')
  {
    var base := p.naming.base(metas[i].name);
    if base !in saved && |saved| >= p.maxBackups {
      SplittingRefuses(p, files, metas, i, saved, remained, removed);
      return saved, remained, removed + [metas[i]];
    } else {
      SplittingAdmits(p, files, metas, i, saved, remained, removed);
      return saved + {base}, remained + [metas[i]], removed;
    }
  }

  /** The loop over MaxAge. */
  method SplitByAge(p: Policy, now: int, metas: seq<Meta>) returns (remained: seq<Meta>, removed: seq<Meta>)
    requires Timed(p, metas) && Distinct(metas)
    ensures Names(remained) == Aged(p, now, Names(metas), false)
    ensures Names(removed) == Aged(p, now, Names(metas), true)
    ensures Distinct(remained)
  {
    remained, removed := [], [];
    var cutOff := now - p.maxAge * DAY;
    var i := 0;
    while i < |metas|
      invariant i <= |metas|
      invariant Names(remained) == Aged(p, now, NamesBefore(metas, i), false)
      invariant Names(removed) == Aged(p, now, NamesBefore(metas, i), true)
      invariant Distinct(remained)
    {
      var m := metas[i];
      NewName(metas, i);
      if m.time < cutOff {
        NamesAppend(removed, m);
        removed := removed + [m];
      } else {
        DistinctAppend(remained, m);
        remained := remained + [m];
      }
      i := i + 1;
    }
    assert NamesBefore(metas, i) == Names(metas);
  }

  /** Both loops: what is left is to be kept, and what is to be removed is the rest. */
  method Split(p: Policy, ghost files: Files, now: int, metas: seq<Meta>) returns (left: seq<Meta>, removed: seq<Meta>)
    requires Consistent(p.naming) && DistinctTimes(p, files) && Lists(p, metas, Backups(p, files))
    ensures Names(left) == Backups(p, files) * Kept(p, files, now) && Distinct(left)
    ensures Names(removed) == Backups(p, files) - Kept(p, files, now)
  {
    left, removed := metas, [];
    if p.maxBackups > 0 {
      left, removed := SplitByCount(p, files, metas);
    }
    if p.maxAge > 0 {
      var expired;
      left, expired := SplitByAge(p, now, left);
      NamesConcat(removed, expired);
      removed := removed + expired;
    }
  }

  function Plain(p: Policy, names: set<string>): set<string> {
    set name | name in names && !p.naming.isZipped(name)
  }

  lemma PlainGrows(p: Policy, names: set<string>, name: string)
    ensures Plain(p, names + {name}) == Plain(p, names) + if p.naming.isZipped(name) then {} else {name}
    ensures forall n :: n in Plain(p, names) ==> n in names && !p.naming.isZipped(n)
  {
  }

  lemma ZipOne(p: Policy, files: Files, names: set<string>, name: string)
    requires Consistent(p.naming) && names + {name} <= files.Keys && name !in names
    requires forall n :: n in names + {name} ==> !p.naming.isZipped(n)
    ensures name in Zipped(p, files, names) && Zipped(p, files, names)[name] == files[name]
    ensures Zipped(p, files, names + {name}) ==
            Zipped(p, files, names)[p.naming.zipped(name) := p.gzip(files[name])] - {name}
  {
    assert ZippedNames(p, names + {name}) == ZippedNames(p, names) + {p.naming.zipped(name)};
  }

  lemma RoundIsRetained(p: Policy, files: Files, now: int, left: set<string>, removed: set<string>, after: Files)
    requires left == Backups(p, files) * Kept(p, files, now) && removed == Backups(p, files) - Kept(p, files, now)
    requires after == if p.compress
                      then Zipped(p, files - removed, Plain(p, left))
                      else files - removed
    ensures after == Retained(p, files, now)
  {
    assert files - removed == Restricted(files, Kept(p, files, now));
    if p.compress {
      assert Zipping(p, files, now) == Plain(p, left);
    } else {
      assert Zipping(p, files, now) == {} && ZippedNames(p, {}) == {};
    }
  }

  /** The half of LogFileRollover that its goroutine runs. */
  class Retirer {
    const clock: Clock
    const filename: string
    const policy: Policy
    var files: Files

    ghost predicate Valid()
      reads this
    {
      Lawful(clock) && policy.naming == NamingOf(clock, filename)
    }

    constructor (clock: Clock, filename: string, maxBackups: int, maxAge: int, compress: bool,
                 gzip: seq<Byte> -> seq<Byte>, files: Files)
      requires Lawful(clock)
      ensures Valid() && this.files == files && this.clock == clock && this.filename == filename
      ensures policy == Policy(NamingOf(clock, filename), maxBackups, maxAge, compress, gzip)
    {
      this.clock, this.filename, this.files := clock, filename, files;
      policy := Policy(NamingOf(clock, filename), maxBackups, maxAge, compress, gzip);
    }

    method Delete(metas: seq<Meta>)
      modifies `files
      ensures files == old(files) - Names(metas)
    {
      var i := 0;
      while i < |metas|
        invariant i <= |metas|
        invariant files == old(files) - NamesBefore(metas, i)
      {
        files := files - {metas[i].name};
        i := i + 1;
      }
      assert NamesBefore(metas, i) == Names(metas);
    }

    /** Compresses a file unless it is compressed already. */
    method CompressOne(name: string, ghost before: Files, ghost names: set<string>)
      requires Consistent(policy.naming) && names + {name} <= before.Keys && name !in names
      requires files == Zipped(policy, before, Plain(policy, names))
      modifies `files
      ensures files == Zipped(policy, before, Plain(policy, names + {name}))
    {
      PlainGrows(policy, names, name);
      if !policy.naming.isZipped(name) {
        ZipOne(policy, before, Plain(policy, names), name);
        files := files[policy.naming.zipped(name) := policy.gzip(files[name])] - {name};
      }
    }

    method Compress(metas: seq<Meta>)
      requires Consistent(policy.naming) && Names(metas) <= files.Keys && Distinct(metas)
      modifies `files
      ensures files == Zipped(policy, old(files), Plain(policy, Names(metas)))
    {
      ghost var names: set<string> := {};
      var i := 0;
      assert ZippedNames(policy, {}) == {} && Plain(policy, {}) == {};
      while i < |metas|
        invariant i <= |metas| && names == NamesBefore(metas, i) <= Names(metas)
        invariant files == Zipped(policy, old(files), Plain(policy, names))
      {
        NewName(metas, i);
        assert metas[i].name in Names(metas);
        CompressOne(metas[i].name, old(files), names);
        names := names + {metas[i].name};
        i := i + 1;
      }
      assert NamesBefore(metas, i) == Names(metas);
    }

    /** One round leaves what is to be kept, compressed if it is to be; or it panics on a name. */
    method RolloverExec(now: int) returns (panics: bool)
      requires Valid() && DistinctTimes(policy, files)
      modifies `files
      ensures panics <==>
                && (policy.maxAge != 0 || policy.maxBackups != 0 || policy.compress)
                && exists name :: name in old(files) && TimeOf(clock, filename, name) == Panics
      ensures files == if panics then old(files) else Retained(policy, old(files), now)
      ensures DistinctTimes(policy, files)
    {
      LogNamesAreConsistent(clock, filename);
      RoundKeepsDistinctTimes(policy, files, now);
      if policy.maxAge == 0 && policy.maxBackups == 0 && !policy.compress {
        NothingToDo(policy, files, now);
        return false;
      }
      var metas;
      metas, panics := LoadFileList(policy, clock, filename, files);
      if panics {
        return;
      }
      var left, removed := Split(policy, files, now, metas);
      Delete(removed);
      if policy.compress {
        Compress(left);
      }
      RoundIsRetained(policy, old(files), now, Names(left), Names(removed), files);
    }

    /** A second round at the same time neither panics nor changes anything. */
    method RolloverTwice(now: int) returns (panics: bool)
      requires Valid() && DistinctTimes(policy, files)
      modifies `files
      ensures files == if panics then old(files) else Retained(policy, old(files), now)
      ensures panics <==>
                && (policy.maxAge != 0 || policy.maxBackups != 0 || policy.compress)
                && exists name :: name in old(files) && TimeOf(clock, filename, name) == Panics
    {
      LogNamesAreConsistent(clock, filename);
      panics := RolloverExec(now);
      if !panics {
        NoNewFatalName(old(files), now);
        RetainedIsStable(policy, old(files), now);
        var again := RolloverExec(now);
        assert !again;
      }
    }

    /** A round puts no name into the directory that would be fatal to the next. */
    lemma NoNewFatalName(before: Files, now: int)
      requires Valid()
      ensures forall name :: name in Retained(policy, before, now) && TimeOf(clock, filename, name) == Panics ==>
                name in before
    {
      LogNamesAreConsistent(clock, filename);
      forall name | name in Retained(policy, before, now) && TimeOf(clock, filename, name) == Panics
        ensures name in before
      {
        OthersAreUntouched(policy, before, now, name);
      }
    }
  }
}
