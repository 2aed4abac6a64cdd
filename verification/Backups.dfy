/** Backups of the AIDE database and log, and their pruning (cmd/manager/daemon_util.go,
    and the file side of handleAIDEInit in cmd/manager/loops.go).

    The AIDE directory maps names to entries. Copies are atomic; the clock and what
    `aide -i` leaves behind are parameters. */
module Backups {
  import opened Text

  type Bytes = seq<int>

  datatype Entry = Entry(isDir: bool, modTime: int, bytes: Bytes)

  type Dir = map<string, Entry>

  const DB := "aide.db.gz"
  const NEW_DB := "aide.db.gz.new"
  const LOG := "aide.log"
  const BACKUP := ".backup-"

  // ---------- what pruning has to do ----------

  /** The backups of a file: regular entries with its backup prefix. */
  predicate IsBackup(files: Dir, base: string, name: string)
  {
    name in files && !files[name].isDir && HasPrefix(name, base + BACKUP)
  }

  ghost function Backups(files: Dir, base: string): set<string>
  {
    set name | name in files && IsBackup(files, base, name)
  }

  function Limit(n: nat, max: int): nat
  {
    if n <= max then n else if max < 0 then 0 else max
  }

  /** `gone` is a choice of the oldest backups that leaves as many as the limit allows; ties
      in modification time may be broken either way. */
  ghost predicate OldestChosen(files: Dir, base: string, max: int, gone: set<string>)
  {
    && gone <= Backups(files, base)
    && |gone| == |Backups(files, base)| - Limit(|Backups(files, base)|, max)
    && (forall d, k | d in gone && k in Backups(files, base) - gone :: files[d].modTime <= files[k].modTime)
  }

  // ---------- sorting ----------

  datatype Backup = Backup(name: string, modTime: int)

  predicate SortedByTime(s: seq<Backup>)
  {
    forall i, j | 0 <= i < j < |s| :: s[i].modTime <= s[j].modTime
  }

  function Insert(b: Backup, s: seq<Backup>): (r: seq<Backup>)
    ensures multiset(r) == multiset(s) + multiset{b}
  {
    if s == [] || b.modTime <= s[0].modTime then [b] + s
    else
      assert s == [s[0]] + s[1..];
      [s[0]] + Insert(b, s[1..])
  }

  lemma {:induction false} InsertSorts(b: Backup, s: seq<Backup>)
    requires SortedByTime(s)
    ensures SortedByTime(Insert(b, s))
  {
    if s != [] && b.modTime > s[0].modTime {
      InsertSorts(b, s[1..]);
      var rest := Insert(b, s[1..]);
      forall x | x in rest
        ensures s[0].modTime <= x.modTime
      {
        assert x in multiset(rest);
        assert x == b || x in s[1..];
      }
    }
  }

  /** sort.Slice by modification time: some sorted permutation. */
  method SortBackups(s: seq<Backup>) returns (r: seq<Backup>)
    ensures SortedByTime(r)
    ensures multiset(r) == multiset(s)
  {
    r := [];
    for i := 0 to |s|
      invariant SortedByTime(r)
      invariant multiset(r) == multiset(s[..i])
    {
      assert s[..i + 1] == s[..i] + [s[i]];
      InsertSorts(s[i], r);
      r := Insert(s[i], r);
    }
    assert s[..|s|] == s;
  }

  // ---------- lists of distinct names ----------

  function NameSet(s: seq<Backup>): set<string>
  {
    set b | b in s :: b.name
  }

  ghost predicate Distinct(s: seq<Backup>)
  {
    forall i, j | 0 <= i < j < |s| :: s[i].name != s[j].name
  }

  lemma {:induction false} DistinctCount(s: seq<Backup>)
    requires Distinct(s)
    ensures |NameSet(s)| == |s|
  {
    if s != [] {
      var init, last := s[..|s| - 1], s[|s| - 1];
      DistinctCount(init);
      assert s == init + [last];
      assert NameSet(s) == NameSet(init) + {last.name};
      assert last.name !in NameSet(init);
    }
  }

  /** A permutation of distinct names is distinct. */
  lemma DistinctPermutation(s: seq<Backup>, r: seq<Backup>)
    requires Distinct(s) && multiset(s) == multiset(r)
    ensures Distinct(r) && NameSet(r) == NameSet(s) && |r| == |s|
    ensures forall b :: b in r <==> b in s
  {
    assert |r| == |multiset(r)| && |s| == |multiset(s)|;
    forall b
      ensures b in r <==> b in s
    {
      assert b in multiset(r) <==> b in r;
      assert b in multiset(s) <==> b in s;
    }
    forall i, j | 0 <= i < j < |r|
      ensures r[i].name != r[j].name
    {
      if r[i].name == r[j].name {
        assert r[i] in s && r[j] in s;
        assert r[i] == r[j];
        CountTwice(r, i, j);
        CountOnce(s, r[i]);
      }
    }
  }

  lemma CountTwice(r: seq<Backup>, i: nat, j: nat)
    requires i < j < |r| && r[i] == r[j]
    ensures multiset(r)[r[i]] >= 2
  {
    assert r == r[..j] + [r[j]] + r[j + 1..];
    assert r[..j][i] == r[i];
    assert r[i] in multiset(r[..j]);
  }

  lemma {:induction false} CountOnce(s: seq<Backup>, b: Backup)
    requires Distinct(s)
    ensures multiset(s)[b] <= 1
  {
    if s != [] {
      var init, last := s[..|s| - 1], s[|s| - 1];
      assert s == init + [last];
      CountOnce(init, b);
      assert last !in init;
    }
  }

  // ---------- pruning ----------

  /** The first m of the sorted list are a choice of the oldest. */
  lemma NameSetMore(backups: seq<Backup>, i: nat)
    requires i < |backups|
    ensures NameSet(backups[..i + 1]) == NameSet(backups[..i]) + {backups[i].name}
  {
    assert backups[..i + 1] == backups[..i] + [backups[i]];
  }

  lemma PrefixIsOldest(files: Dir, base: string, max: int, sorted: seq<Backup>, m: nat)
    requires Distinct(sorted) && SortedByTime(sorted) && NameSet(sorted) == Backups(files, base)
    requires forall b | b in sorted :: b.name in files && b.modTime == files[b.name].modTime
    requires m <= |sorted| && m == |sorted| - Limit(|sorted|, max)
    ensures OldestChosen(files, base, max, NameSet(sorted[..m]))
  {
    var gone := NameSet(sorted[..m]);
    DistinctCount(sorted);
    DistinctCount(sorted[..m]);
    assert forall b | b in sorted[..m] :: b in sorted;
    forall d, k | d in gone && k in Backups(files, base) - gone
      ensures files[d].modTime <= files[k].modTime
    {
      var x :| x in sorted[..m] && x.name == d;
      var y :| y in sorted && y.name == k;
      var i :| 0 <= i < m && sorted[i] == x;
      var j :| 0 <= j < |sorted| && sorted[j] == y;
      assert j < m ==> sorted[..m][j] == y;
    }
  }

  /** After pruning, exactly the limit remains and everything else is untouched. */
  lemma PruneLeaves(files: Dir, base: string, max: int, gone: set<string>)
    requires OldestChosen(files, base, max, gone)
    ensures Backups(files - gone, base) == Backups(files, base) - gone
    ensures var n := |Backups(files, base)|;
            |Backups(files - gone, base)| == if n <= max then n else if max < 0 then 0 else max
    ensures forall name | name in files && (files[name].isDir || !HasPrefix(name, base + ".backup-")) ::
              name in files - gone && (files - gone)[name] == files[name]
  {
    assert Backups(files - gone, base) == Backups(files, base) - gone;
    assert |Backups(files, base) - gone| == |Backups(files, base)| - |gone|;
  }

  /** The directory listing with its filter. */
  lemma OneMore(backups: seq<Backup>, b: Backup)
    requires Distinct(backups) && b.name !in NameSet(backups)
    ensures Distinct(backups + [b]) && NameSet(backups + [b]) == NameSet(backups) + {b.name}
  {
    assert forall x | x in backups :: x.name in NameSet(backups);
  }

  method ListBackups(files: Dir, base: string) returns (backups: seq<Backup>)
    ensures Distinct(backups) && NameSet(backups) == Backups(files, base)
    ensures forall b | b in backups :: b.name in files && b.modTime == files[b.name].modTime
  {
    backups := [];
    assert Distinct(backups);
    hide Distinct, HasPrefix;
    var todo := files.Keys;
    while todo != {}
      invariant todo <= files.Keys
      invariant Distinct(backups)
      invariant forall b | b in backups :: b.name in files && b.modTime == files[b.name].modTime
      invariant forall name :: name in NameSet(backups) <==>
                               name in files && name !in todo && IsBackup(files, base, name)
      decreases |todo|
    {
      var f :| f in todo;
      todo := todo - {f};
      if files[f].isDir {
        continue;
      }
      if HasPrefix(f, base + BACKUP) {
        OneMore(backups, Backup(f, files[f].modTime));
        backups := backups + [Backup(f, files[f].modTime)];
      }
    }
  }

  /** The file's backup under a time stamp, if there is something to back up. */
  function BackedUp(files: Dir, base: string, stamp: string, now: int): Dir
  {
    if base !in files || files[base].bytes == [] then files
    else files[base + BACKUP + stamp := Entry(false, now, files[base].bytes)]
  }

  /** backupFile does not fail: there is nothing to copy, or a regular file. */
  predicate Backable(files: Dir, base: string)
  {
    base in files && files[base].bytes != [] ==> !files[base].isDir
  }

  /** backupReadDB and backupReadLog without I/O errors: back up, then prune. */
  ghost predicate Rotated(before: Dir, after: Dir, base: string, stamp: string, now: int, max: int)
  {
    exists gone ::
      && OldestChosen(BackedUp(before, base, stamp, now), base, max, gone)
      && after == BackedUp(before, base, stamp, now) - gone
  }

  /** What `aide -i` did: its result and what it left in the new database file. */
  datatype AideRun = AideRun(ok: bool, output: Option<Bytes>)

  function AfterAide(files: Dir, now: int, aide: AideRun): Dir
  {
    if aide.output.Some? then files[NEW_DB := Entry(false, now, aide.output.value)] else files
  }

  /** There is a new database to install. */
  predicate Installable(files: Dir, now: int, aide: AideRun)
  {
    var f := AfterAide(files, now, aide);
    aide.ok && NEW_DB in f && !f[NEW_DB].isDir && f[NEW_DB].bytes != []
  }

  function Installed(files: Dir, now: int, aide: AideRun): Dir
  {
    var f := AfterAide(files, now, aide);
    if Installable(files, now, aide) then f[DB := Entry(false, now, f[NEW_DB].bytes)] else f
  }

  /** One call of handleAIDEInit: the time stamp, the clock, and the run of aide. */
  datatype InitCall = InitCall(stamp: string, now: int, aide: AideRun)

  ghost predicate InitDone(before: Dir, after: Dir, c: InitCall, max: int)
  {
    exists mid, backed :: InitSteps(before, mid, backed, after, c, max)
  }

  ghost predicate InitSteps(before: Dir, mid: Dir, backed: Dir, after: Dir, c: InitCall, max: int)
  {
    && Rotated(before, mid, DB, c.stamp, c.now, max)
    && Rotated(mid, backed, LOG, c.stamp, c.now, max)
    && after == Installed(backed, c.now, c.aide)
  }

  class AideDir {
    var files: Dir

    constructor (files: Dir)
      ensures this.files == files
    {
      this.files := files;
    }

    /** pruneBackupFiles; `failing` are the names whose removal fails */
    method PruneBackupFiles(base: string, max: int, failing: set<string>) returns (ghost gone: set<string>)
      modifies this`files
      ensures OldestChosen(old(files), base, max, gone)
      ensures files == old(files) - (gone - failing)
    {
      hide SortedByTime, Distinct;
      gone := {};
      var backups := ListBackups(files, base);
      DistinctCount(backups);
      if |backups| <= max {
        return;
      }
      hide OldestChosen, Backups, IsBackup, NameSet;
      var sorted := SortBackups(backups);
      DistinctPermutation(backups, sorted);
      var last := |backups| - max;
      ghost var m := if last < |sorted| then last else |sorted|;
      for i := 0 to |sorted|
        invariant gone == NameSet(sorted[..if i < m then i else m])
        invariant files == old(files) - (gone - failing)
      {
        if i < last {
          NameSetMore(sorted, i);
          gone := gone + {sorted[i].name};
          if sorted[i].name in failing {
            continue;
          }
          files := files - {sorted[i].name};
        }
      }
      PrefixIsOldest(old(files), base, max, sorted, m);
    }

    /** backupFile */
    method BackupFile(base: string, stamp: string, now: int) returns (ok: bool)
      modifies this`files
      ensures ok <==> !(base in old(files) && old(files)[base].bytes != [] && old(files)[base].isDir)
      ensures files == if ok then BackedUp(old(files), base, stamp, now) else old(files)
    {
      if base !in files || files[base].bytes == [] {
        return true;
      }
      if files[base].isDir {
        return false;
      }
      files := files[base + BACKUP + stamp := Entry(false, now, files[base].bytes)];
      return true;
    }

    /** backupReadDB and backupReadLog */
    method Rotate(base: string, stamp: string, now: int, max: int) returns (ok: bool)
      modifies this`files
      ensures ok <==> Backable(old(files), base)
      ensures if ok then Rotated(old(files), files, base, stamp, now, max) else files == old(files)
    {
      ok := BackupFile(base, stamp, now);
      if ok {
        ghost var gone := PruneBackupFiles(base, max, {});
        assert gone - {} == gone;
      }
    }

    /** The file side of handleAIDEInit: back up and prune database and log, run `aide -i`, copy
        the new database over the live one. Each failure ends it where it happens. */
    method HandleAideInit(c: InitCall, max: int) returns (ok: bool, ghost mid: Dir, ghost backed: Dir)
      modifies this`files
      ensures if !Backable(old(files), DB) then !ok && files == old(files)
              else Rotated(old(files), mid, DB, c.stamp, c.now, max) &&
                   if !Backable(old(files), LOG) then !ok && files == mid
                   else InitSteps(old(files), mid, backed, files, c, max)
                        && (ok <==> c.aide.ok && NewDatabase(old(files), c.aide) != [])
      ensures ok ==> c.aide.ok
      ensures if ok then DB in files && files[DB] == Entry(false, c.now, NewDatabase(old(files), c.aide))
              else SameDatabase(old(files), files)
    {
      mid, backed := files, files;
      ok := Rotate(DB, c.stamp, c.now, max);
      if !ok {
        return;
      }
      mid := files;
      NamesApart();
      RotationKeeps(old(files), mid, DB, c.stamp, c.now, max, LOG);
      RotationKeeps(old(files), mid, DB, c.stamp, c.now, max, DB);
      RotationKeeps(old(files), mid, DB, c.stamp, c.now, max, NEW_DB);
      ok := Rotate(LOG, c.stamp, c.now, max);
      if !ok {
        return;
      }
      backed := files;
      RotationKeeps(mid, backed, LOG, c.stamp, c.now, max, DB);
      RotationKeeps(mid, backed, LOG, c.stamp, c.now, max, NEW_DB);
      hide Rotated;
      if c.aide.output.Some? {
        files := files[NEW_DB := Entry(false, c.now, c.aide.output.value)];
      }
      if !c.aide.ok {
        ok := false;
        return;
      }
      if NEW_DB !in files || files[NEW_DB].isDir || files[NEW_DB].bytes == [] {
        ok := false;
        return;
      }
      files := files[DB := Entry(false, c.now, files[NEW_DB].bytes)];
    }
  }

  // ---------- what one init does to the live database ----------

  /** The database an init would install: what `aide -i` wrote, or else what was there before;
      empty when there is none. */
  function NewDatabase(before: Dir, aide: AideRun): Bytes
  {
    if aide.output.Some? then aide.output.value
    else if NEW_DB in before && !before[NEW_DB].isDir then before[NEW_DB].bytes
    else []
  }

  predicate SameDatabase(before: Dir, after: Dir)
  {
    (DB in after <==> DB in before) && (DB in before ==> after[DB] == before[DB])
  }

  // ---------- names ----------

  predicate BackupName(base: string, name: string)
  {
    HasPrefix(name, base + BACKUP)
  }

  /** The live files are no backups, and no name is a backup of both. */
  lemma NamesApart()
    ensures DB != LOG && DB != NEW_DB
    ensures forall base, name | base in {DB, LOG} && name in {DB, LOG, NEW_DB} :: !BackupName(base, name)
    ensures forall name :: !(BackupName(DB, name) && BackupName(LOG, name))
  {
    assert |DB| == 10 && |LOG| == 8 && |NEW_DB| == 14 && |BACKUP| == 8;
    assert (DB + BACKUP)[5] == 'd' && (LOG + BACKUP)[5] == 'l';
    forall name | BackupName(DB, name)
      ensures !BackupName(LOG, name)
    {
      assert name[..18][5] == name[5];
      assert |name| >= 16 ==> name[..16][5] == name[5];
    }
  }

  lemma StampedName(base: string, stamp: string)
    ensures BackupName(base, base + BACKUP + stamp)
  {
    assert (base + BACKUP + stamp)[..|base + BACKUP|] == base + BACKUP;
  }

  // ---------- one rotation ----------

  /** Entries that are not backups of the file stay as they are. */
  lemma RotationKeeps(before: Dir, after: Dir, base: string, stamp: string, now: int, max: int, name: string)
    requires Rotated(before, after, base, stamp, now, max) && !BackupName(base, name)
    ensures name in after <==> name in before
    ensures name in before ==> after[name] == before[name]
  {
    StampedName(base, stamp);
  }

  /** At most `max` backups remain, none for a negative limit. */
  lemma RotationBounds(before: Dir, after: Dir, base: string, stamp: string, now: int, max: int)
    requires Rotated(before, after, base, stamp, now, max)
    ensures |Backups(after, base)| <= if max < 0 then 0 else max
  {
    var f := BackedUp(before, base, stamp, now);
    var gone :| OldestChosen(f, base, max, gone) && after == f - gone;
    PruneLeaves(f, base, max, gone);
  }

  /** Other backups that are not older than the new one. */
  ghost function NotOlder(files: Dir, base: string, stamp: string, now: int): set<string>
  {
    set name | name in Backups(files, base) && name != base + BACKUP + stamp && files[name].modTime >= now
  }

  /** The fresh backup survives its own rotation if fewer than `max` others are not older,
      however ties are broken. */
  lemma RotationSaves(before: Dir, after: Dir, base: string, stamp: string, now: int, max: int)
    requires Rotated(before, after, base, stamp, now, max)
    requires base in before && before[base].bytes != []
    requires |NotOlder(before, base, stamp, now)| < max
    ensures IsBackup(after, base, base + BACKUP + stamp)
    ensures after[base + BACKUP + stamp] == Entry(false, now, before[base].bytes)
  {
    var name := base + BACKUP + stamp;
    StampedName(base, stamp);
    var f := BackedUp(before, base, stamp, now);
    var gone :| OldestChosen(f, base, max, gone) && after == f - gone;
    assert name in Backups(f, base);
    if name in gone {
      KeptAreNotOlder(before, base, stamp, now, max, gone);
      hide NotOlder, Backups, BackedUp;
      SubsetCount(Backups(f, base) - gone, NotOlder(before, base, stamp, now));
    }
  }

  /** Where the fresh backup goes, everything that stays is not older. */
  lemma KeptAreNotOlder(before: Dir, base: string, stamp: string, now: int, max: int, gone: set<string>)
    requires base in before && before[base].bytes != [] && base + BACKUP + stamp in gone
    requires OldestChosen(BackedUp(before, base, stamp, now), base, max, gone)
    ensures Backups(BackedUp(before, base, stamp, now), base) - gone <= NotOlder(before, base, stamp, now)
  {
    var f := BackedUp(before, base, stamp, now);
    forall k | k in Backups(f, base) - gone
      ensures k in NotOlder(before, base, stamp, now)
    {
      assert f[base + BACKUP + stamp].modTime <= f[k].modTime;
    }
  }

  /** Other backups that are younger than the new one. */
  ghost function Younger(files: Dir, base: string, stamp: string, now: int): set<string>
  {
    set name | name in Backups(files, base) && name != base + BACKUP + stamp && files[name].modTime > now
  }

  /** With as many younger ones as the limit, as when the clock was set back, the fresh backup is
      itself pruned. */
  lemma RotationLoses(before: Dir, after: Dir, base: string, stamp: string, now: int, max: int)
    requires Rotated(before, after, base, stamp, now, max)
    requires base in before && before[base].bytes != []
    requires |Younger(before, base, stamp, now)| >= max
    ensures base + BACKUP + stamp !in after
  {
    var name := base + BACKUP + stamp;
    var newer := Younger(before, base, stamp, now);
    StampedName(base, stamp);
    var f := BackedUp(before, base, stamp, now);
    var gone :| OldestChosen(f, base, max, gone) && after == f - gone;
    PruneLeaves(f, base, max, gone);
    assert f[name].modTime == now && newer <= Backups(f, base);
    if name !in gone {
      NewerAreKept(f, base, max, gone, name, newer);
      SubsetCount(newer + {name}, Backups(f, base) - gone);
    }
  }

  lemma NewerAreKept(f: Dir, base: string, max: int, gone: set<string>, name: string, newer: set<string>)
    requires OldestChosen(f, base, max, gone)
    requires IsBackup(f, base, name) && name !in gone && newer <= Backups(f, base)
    requires forall x | x in newer :: f[x].modTime > f[name].modTime
    ensures newer + {name} <= Backups(f, base) - gone
  {
    assert name in Backups(f, base) - gone;
  }

  /** Exactly when the fresh backup survives, if no other one has its second: fewer than the limit
      are younger. */
  lemma RotationSavesIff(before: Dir, after: Dir, base: string, stamp: string, now: int, max: int)
    requires Rotated(before, after, base, stamp, now, max)
    requires base in before && before[base].bytes != []
    requires forall name | name in Backups(before, base) && name != base + BACKUP + stamp :: before[name].modTime != now
    ensures base + BACKUP + stamp in after <==> |NotOlder(before, base, stamp, now)| < max
  {
    assert NotOlder(before, base, stamp, now) == Younger(before, base, stamp, now);
    if |NotOlder(before, base, stamp, now)| < max {
      RotationSaves(before, after, base, stamp, now, max);
    } else {
      RotationLoses(before, after, base, stamp, now, max);
    }
  }

  lemma {:induction false} Between(low: set<string>, high: set<string>, k: nat) returns (b: set<string>)
    requires low <= high && |low| <= k <= |high|
    ensures low <= b <= high && |b| == k
    decreases k - |low|
  {
    b := low;
    if |low| < k {
      assert high != low;
      var x :| x in high && x !in low;
      b := Between(low + {x}, high, k);
    }
  }

  /** Keeping the younger ones and some of those of the same second is an outcome of the rotation. */
  lemma KeepTies(before: Dir, base: string, stamp: string, now: int, max: int, kept: set<string>) returns (after: Dir)
    requires var f := BackedUp(before, base, stamp, now);
             && kept <= Backups(f, base) && |kept| == max < |Backups(f, base)|
             && (forall x | x in kept :: f[x].modTime >= now)
             && (forall x | x in Backups(f, base) && f[x].modTime > now :: x in kept)
    ensures Rotated(before, after, base, stamp, now, max)
    ensures forall x | x in Backups(BackedUp(before, base, stamp, now), base) :: x in after <==> x in kept
  {
    var f := BackedUp(before, base, stamp, now);
    var gone := Backups(f, base) - kept;
    assert Backups(f, base) - gone == kept;
    assert |gone| == |Backups(f, base)| - |kept|;
    assert OldestChosen(f, base, max, gone);
    after := f - gone;
  }

  /** The backups once the fresh one is among them, and which of them are younger or as old. */
  lemma WithFresh(before: Dir, base: string, stamp: string, now: int)
    requires base in before && before[base].bytes != []
    ensures var f, name := BackedUp(before, base, stamp, now), base + BACKUP + stamp;
            && Backups(f, base) == Backups(before, base) + {name} && f[name].modTime == now
            && (forall x | x in Backups(f, base) && f[x].modTime > now :: x in Younger(before, base, stamp, now))
            && (forall x | x in NotOlder(before, base, stamp, now) :: x in f && f[x].modTime >= now && x != name)
            && Younger(before, base, stamp, now) <= NotOlder(before, base, stamp, now) <= Backups(before, base)
  {
    StampedName(base, stamp);
  }

  /** Ties decide the rest: with fewer than the limit younger, but at least the limit not older, the
      order in which the sort leaves equal seconds keeps the fresh backup or prunes it. */
  lemma TiesDecide(before: Dir, base: string, stamp: string, now: int, max: int) returns (with: Dir, without: Dir)
    requires base in before && before[base].bytes != []
    requires |Younger(before, base, stamp, now)| < max <= |NotOlder(before, base, stamp, now)|
    ensures Rotated(before, with, base, stamp, now, max) && base + BACKUP + stamp in with
    ensures Rotated(before, without, base, stamp, now, max) && base + BACKUP + stamp !in without
  {
    hide BackedUp, Backups, Younger, NotOlder, Rotated;
    var name := base + BACKUP + stamp;
    var younger, notOlder := Younger(before, base, stamp, now), NotOlder(before, base, stamp, now);
    WithFresh(before, base, stamp, now);
    SubsetCount(notOlder + {name}, Backups(BackedUp(before, base, stamp, now), base));
    var some := Between(younger, notOlder, max);
    without := KeepTies(before, base, stamp, now, max, some);
    var fewer := Between(younger, notOlder, max - 1);
    with := KeepTies(before, base, stamp, now, max, fewer + {name});
  }

  // ---------- one init ----------

  /** All backups of the file are from time t or before. */
  ghost predicate OlderThan(files: Dir, base: string, t: int)
  {
    forall name | IsBackup(files, base, name) :: files[name].modTime < t
  }

  lemma RotationAges(before: Dir, after: Dir, base: string, stamp: string, now: int, max: int, t: int)
    requires Rotated(before, after, base, stamp, now, max)
    requires OlderThan(before, base, now) && now < t
    ensures OlderThan(after, base, t)
  {
    StampedName(base, stamp);
  }

  lemma InstallKeepsBackups(files: Dir, now: int, aide: AideRun, base: string)
    requires base in {DB, LOG}
    ensures Backups(Installed(files, now, aide), base) == Backups(files, base)
    ensures forall name | name in Backups(files, base) :: Installed(files, now, aide)[name] == files[name]
  {
    NamesApart();
    assert !BackupName(base, DB) && !BackupName(base, NEW_DB);
  }

  lemma OtherRotationKeepsBackups(before: Dir, after: Dir, stamp: string, now: int, max: int)
    requires Rotated(before, after, LOG, stamp, now, max)
    ensures Backups(after, DB) == Backups(before, DB)
    ensures forall name | name in Backups(before, DB) :: after[name] == before[name]
  {
    NamesApart();
    forall name | BackupName(DB, name)
      ensures name in after <==> name in before
      ensures name in before ==> after[name] == before[name]
    {
      RotationKeeps(before, after, LOG, stamp, now, max, name);
    }
  }

  /** Whatever the directory and the run of aide: a failed run, or one without a database to show
      for it, leaves the live database as it was; otherwise that database is the live one. */
  lemma InitDatabase(before: Dir, mid: Dir, backed: Dir, after: Dir, c: InitCall, max: int)
    requires InitSteps(before, mid, backed, after, c, max)
    ensures if c.aide.ok && NewDatabase(before, c.aide) != []
            then DB in after && after[DB] == Entry(false, c.now, NewDatabase(before, c.aide))
                 && NEW_DB in after && after[NEW_DB].bytes == after[DB].bytes
            else SameDatabase(before, after)
    ensures c.aide.output.Some? ==> NEW_DB in after && after[NEW_DB].bytes == c.aide.output.value
  {
    NamesApart();
    RotationKeeps(before, mid, DB, c.stamp, c.now, max, DB);
    RotationKeeps(mid, backed, LOG, c.stamp, c.now, max, DB);
    RotationKeeps(before, mid, DB, c.stamp, c.now, max, NEW_DB);
    RotationKeeps(mid, backed, LOG, c.stamp, c.now, max, NEW_DB);
  }

  /** After every init the limits hold; the live database is the new one after a success and as it
      was after a failure; and with the clock past every database backup the previous database
      survives in a backup. */
  lemma InitKeepsDatabase(before: Dir, mid: Dir, backed: Dir, after: Dir, c: InitCall, max: int)
    requires InitSteps(before, mid, backed, after, c, max)
    ensures var limit := if max < 0 then 0 else max;
            |Backups(after, DB)| <= limit && |Backups(after, LOG)| <= limit
    ensures if c.aide.ok && NewDatabase(before, c.aide) != []
            then DB in after && after[DB] == Entry(false, c.now, NewDatabase(before, c.aide))
                 && NEW_DB in after && after[NEW_DB].bytes == after[DB].bytes
            else SameDatabase(before, after)
    ensures DB in before && before[DB].bytes != [] && max >= 1 && OlderThan(before, DB, c.now) ==>
              IsBackup(after, DB, DB + BACKUP + c.stamp) && after[DB + BACKUP + c.stamp].bytes == before[DB].bytes
  {
    NamesApart();
    InitDatabase(before, mid, backed, after, c, max);
    RotationBounds(before, mid, DB, c.stamp, c.now, max);
    RotationBounds(mid, backed, LOG, c.stamp, c.now, max);
    OtherRotationKeepsBackups(mid, backed, c.stamp, c.now, max);
    InstallKeepsBackups(backed, c.now, c.aide, DB);
    InstallKeepsBackups(backed, c.now, c.aide, LOG);
    if DB in before && before[DB].bytes != [] && max >= 1 && OlderThan(before, DB, c.now) {
      assert NotOlder(before, DB, c.stamp, c.now) == {};
      RotationSaves(before, mid, DB, c.stamp, c.now, max);
      assert DB + BACKUP + c.stamp in Backups(mid, DB);
      assert DB + BACKUP + c.stamp in Backups(after, DB);
    }
  }

  // ---------- runs of inits ----------

  /** The same database backups, whatever else has changed. */
  ghost predicate SameDbBackups(a: Dir, b: Dir)
  {
    && Backups(a, DB) == Backups(b, DB)
    && forall name | name in Backups(a, DB) :: a[name] == b[name]
  }

  /** A run of inits, each at a later clock second than the one before. The i-th takes the directory
      from pre[i] to post[i]; in between scans may write logs, and anything but the database
      backups may change. */
  ghost predicate IsInitRun(pre: seq<Dir>, post: seq<Dir>, calls: seq<InitCall>, max: int)
  {
    && |pre| == |post| == |calls|
    && (forall i | 0 <= i < |calls| :: InitDone(pre[i], post[i], calls[i], max))
    && (forall i | 0 < i < |calls| :: calls[i - 1].now < calls[i].now && SameDbBackups(post[i - 1], pre[i]))
    && (calls != [] ==> OlderThan(pre[0], DB, calls[0].now))
  }

  lemma InitAges(before: Dir, mid: Dir, backed: Dir, after: Dir, c: InitCall, max: int, t: int)
    requires InitSteps(before, mid, backed, after, c, max) && OlderThan(before, DB, c.now) && c.now < t
    ensures OlderThan(after, DB, t)
  {
    RotationAges(before, mid, DB, c.stamp, c.now, max, t);
    OtherRotationKeepsBackups(mid, backed, c.stamp, c.now, max);
    InstallKeepsBackups(backed, c.now, c.aide, DB);
    SameAges(mid, backed, t);
    SameAges(backed, after, t);
  }

  lemma SameAges(a: Dir, b: Dir, t: int)
    requires SameDbBackups(a, b) && OlderThan(a, DB, t)
    ensures OlderThan(b, DB, t)
  {
    assert forall name | IsBackup(b, DB, name) :: name in Backups(a, DB);
  }

  lemma {:induction false} RunAges(pre: seq<Dir>, post: seq<Dir>, calls: seq<InitCall>, max: int, i: nat)
    requires IsInitRun(pre, post, calls, max) && i < |calls|
    ensures OlderThan(pre[i], DB, calls[i].now)
  {
    hide InitSteps, OlderThan, SameDbBackups;
    if i > 0 {
      RunAges(pre, post, calls, max, i - 1);
      var mid, backed :| InitSteps(pre[i - 1], mid, backed, post[i - 1], calls[i - 1], max);
      InitAges(pre[i - 1], mid, backed, post[i - 1], calls[i - 1], max, calls[i].now);
      SameAges(post[i - 1], pre[i], calls[i].now);
    }
  }

  /** Some database backup holds these bytes. */
  ghost predicate BackedUpAs(files: Dir, bytes: Bytes)
  {
    exists name :: IsBackup(files, DB, name) && files[name].bytes == bytes
  }

  /** In every run of inits at increasing clock seconds, after each init at most `max` database
      and `max` log backups exist, a non-empty database that was there before the init is
      preserved in one of them, and the live database is the one aide wrote if it succeeded and
      wrote one, and untouched if it failed or there is none. */
  lemma EveryInitKeepsDatabase(pre: seq<Dir>, post: seq<Dir>, calls: seq<InitCall>, max: int, i: nat)
    requires IsInitRun(pre, post, calls, max) && i < |calls| && max >= 1
    ensures |Backups(post[i], DB)| <= max && |Backups(post[i], LOG)| <= max
    ensures DB in pre[i] && pre[i][DB].bytes != [] ==> BackedUpAs(post[i], pre[i][DB].bytes)
    ensures if calls[i].aide.ok && NewDatabase(pre[i], calls[i].aide) != []
            then DB in post[i] && post[i][DB] == Entry(false, calls[i].now, NewDatabase(pre[i], calls[i].aide))
                 && NEW_DB in post[i] && post[i][NEW_DB].bytes == post[i][DB].bytes
            else SameDatabase(pre[i], post[i])
  {
    RunAges(pre, post, calls, max, i);
    var mid, backed :| InitSteps(pre[i], mid, backed, post[i], calls[i], max);
    InitKeepsDatabase(pre[i], mid, backed, post[i], calls[i], max);
  }
}
