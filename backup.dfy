/**
 * The backup service (server/utils/backup.js): archive naming, listing of the
 * backup directory, and retention of the first `keepCount` listed archives.
 * The backup directory is a set of file names; writing an archive adds a name
 * and unlinking removes one. The clock, the directory enumeration order, the
 * outcomes of the file-system and database calls, and the date a timestamp is
 * read as are parameters.
 */
module Backup {
  import opened Wrappers
  import opened Text
  import opened Lists
  import opened Sorting

  const ArchivePrefix := "backup-"
  const ArchiveSuffix := ".zip"
  const DefaultKeepCount: nat := 10

  /** `iso.replace(/[:.]/g, '-')`: the ISO 8601 timestamp made safe for a file name. */
  function SafeStamp(iso: string): (r: string)
    ensures |r| == |iso|
    ensures ':' !in r && '.' !in r
  {
    var r := Substitute(iso, {':', '.'}, '-');
    assert forall i :: 0 <= i < |r| ==> r[i] !in {':', '.'};
    r
  }

  /** The archive name `backup-${timestamp}.zip` chosen by `createBackup`. */
  function ArchiveName(iso: string): string
  {
    ArchivePrefix + SafeStamp(iso) + ArchiveSuffix
  }

  /** The `listBackups` filter: a backup is a name with the prefix and the suffix. */
  predicate IsBackupName(name: string)
  {
    StartsWith(name, ArchivePrefix) && EndsWith(name, ArchiveSuffix)
  }

  /**
   * The timestamp recovered from a name: the first `backup-` and the first
   * `.zip` removed, then every `-` turned into `:`.
   */
  function TimestampOf(name: string): string
  {
    Substitute(ReplaceFirst(ReplaceFirst(name, ArchivePrefix, ""), ArchiveSuffix, ""), {'-'}, ':')
  }

  function JoinPath(dir: string, name: string): string
  {
    dir + "/" + name
  }

  datatype BackupEntry = BackupEntry(filename: string, path: string, timestamp: string)

  function Describe(dir: string, name: string): (e: BackupEntry)
    ensures e.filename == name
  {
    BackupEntry(name, JoinPath(dir, name), TimestampOf(name))
  }

  function Describer(dir: string): string -> BackupEntry
  {
    n => Describe(dir, n)
  }

  /**
   * The comparator `new Date(b.timestamp) - new Date(a.timestamp)` as a sort
   * key: later dates first, for the date `dateOf` reads a timestamp as.
   */
  function NewestFirst(dateOf: string -> int): BackupEntry -> seq<int>
  {
    (e: BackupEntry) => [-dateOf(e.timestamp)]
  }

  /**
   * `listBackups` on the result of `readdir`: `None` when reading the
   * directory failed, which yields the empty list. The entries are ordered by
   * the key of `NewestFirst`; `ListedInDirectoryOrder` shows what that order
   * is for the timestamps the program actually recovers.
   */
  function Backups(dir: string, listing: Option<seq<string>>, dateOf: string -> int): (r: seq<BackupEntry>)
    ensures listing.None? ==> r == []
    ensures listing.Some? ==> multiset(r) == multiset(MapSeq(Filter(listing.value, IsBackupName), Describer(dir)))
    ensures SortedBy(r, NewestFirst(dateOf))
  {
    match listing
    case None => []
    case Some(names) =>
      var kept := Filter(names, IsBackupName);
      var described := MapSeq(kept, Describer(dir));
      SortBy(described, NewestFirst(dateOf))
  }

  /** Every listed entry describes an archive name of the directory. */
  lemma ListedAreBackups(dir: string, names: seq<string>, r: seq<BackupEntry>, i: nat)
    requires multiset(r) == multiset(MapSeq(Filter(names, IsBackupName), Describer(dir)))
    requires i < |r|
    ensures IsBackupName(r[i].filename) && r[i].filename in names && r[i] == Describe(dir, r[i].filename)
  {
    var kept := Filter(names, IsBackupName);
    var described := MapSeq(kept, Describer(dir));
    assert r[i] in multiset(described);
    var k :| 0 <= k < |kept| && described[k] == r[i];
    assert described[k] == Describe(dir, kept[k]);
    assert IsBackupName(kept[k]);
    assert kept[k] in multiset(names);
  }

  /** Every archive name of the directory is listed. */
  lemma BackupsAreListed(dir: string, names: seq<string>, r: seq<BackupEntry>, i: nat)
    requires multiset(r) == multiset(MapSeq(Filter(names, IsBackupName), Describer(dir)))
    requires i < |names| && IsBackupName(names[i])
    ensures Describe(dir, names[i]) in r
  {
    var kept := Filter(names, IsBackupName);
    FilterKeepsPassing(names, IsBackupName, i);
    var k := IndexOf(kept, names[i]);
    DescribedIn(dir, kept, r, k);
  }

  lemma DescribedIn(dir: string, kept: seq<string>, r: seq<BackupEntry>, k: nat)
    requires multiset(r) == multiset(MapSeq(kept, Describer(dir)))
    requires k < |kept|
    ensures Describe(dir, kept[k]) in r
  {
    var described := MapSeq(kept, Describer(dir));
    assert described[k] == Describe(dir, kept[k]);
    assert described[k] in multiset(r);
  }

  /** Every archive `createBackup` names is one that `listBackups` lists. */
  lemma ArchiveNameIsListed(iso: string)
    ensures IsBackupName(ArchiveName(iso))
  {
    var name := ArchiveName(iso);
    assert name[..|ArchivePrefix|] == ArchivePrefix;
    assert name[|name| - |ArchiveSuffix|..] == ArchiveSuffix;
  }

  /**
   * The timestamp read back from an archive name is the original ISO string
   * with every `:`, `.` and `-` turned into `:`: the separators of the time
   * come back, but so do the hyphens of the date.
   */
  lemma {:induction false} ArchiveTimestamp(iso: string)
    ensures TimestampOf(ArchiveName(iso)) == Substitute(iso, {':', '.', '-'}, ':')
  {
    var ts := SafeStamp(iso);
    var name := ArchiveName(iso);
    assert StartsWith(name, ArchivePrefix) by {
      assert name[..|ArchivePrefix|] == ArchivePrefix;
    }
    ReplaceFirstAtStart(name, ArchivePrefix, "");
    assert name[|ArchivePrefix|..] == ts + ArchiveSuffix;
    assert "" + (ts + ArchiveSuffix) == ts + ArchiveSuffix;
    ReplaceFirstSkips(ts, ArchiveSuffix, ArchiveSuffix, "");
    assert StartsWith(ArchiveSuffix, ArchiveSuffix);
    ReplaceFirstAtStart(ArchiveSuffix, ArchiveSuffix, "");
    assert ts + ("" + ArchiveSuffix[|ArchiveSuffix|..]) == ts;
    var back := Substitute(ts, {'-'}, ':');
    var direct := Substitute(iso, {':', '.', '-'}, ':');
    assert forall i :: 0 <= i < |iso| ==> back[i] == direct[i];
  }

  /** Consequently an ISO timestamp, whose date part has hyphens, is not recovered verbatim. */
  lemma TimestampNotRecovered(iso: string)
    requires '-' in iso
    ensures TimestampOf(ArchiveName(iso)) != iso
  {
    ArchiveTimestamp(iso);
    var k :| 0 <= k < |iso| && iso[k] == '-';
    assert Substitute(iso, {':', '.', '-'}, ':')[k] == ':';
  }

  /**
   * No recovered timestamp has a hyphen at all, so none has the
   * `YYYY-MM-DD` shape of an ISO 8601 date.
   */
  lemma TimestampHasNoHyphen(name: string)
    ensures '-' !in TimestampOf(name)
  {
  }

  /**
   * Every archive name's timestamp is read as the same date `c`. This is the
   * program's situation: a recovered timestamp such as `2024:01:15T10:30:00:000Z`
   * is not a date JavaScript's `new Date` reads, every comparison is then
   * `NaN`, and the sort takes `NaN` as a tie.
   */
  ghost predicate TiedDates(dateOf: string -> int, c: int)
  {
    forall n :: IsBackupName(n) ==> dateOf(TimestampOf(n)) == c
  }

  /** With tied dates the stable sort changes nothing: the archives come in the order `readdir` gave. */
  lemma ListedInDirectoryOrder(dir: string, listing: seq<string>, dateOf: string -> int, c: int)
    requires TiedDates(dateOf, c)
    ensures Backups(dir, Some(listing), dateOf) == MapSeq(Filter(listing, IsBackupName), Describer(dir))
  {
    var kept := Filter(listing, IsBackupName);
    var described := MapSeq(kept, Describer(dir));
    var key := NewestFirst(dateOf);
    forall i | 0 <= i < |described| ensures key(described[i]) == [-c] {
      TiedKey(dir, dateOf, c, kept[i]);
    }
    SortByConstantKey(described, key);
  }

  lemma TiedKey(dir: string, dateOf: string -> int, c: int, name: string)
    requires TiedDates(dateOf, c) && IsBackupName(name)
    ensures NewestFirst(dateOf)(Describe(dir, name)) == [-c]
  {
  }

  /**
   * Hence, with tied dates, the archives `deleteOldBackups` removes are those
   * after the first `keepCount` in directory order, whatever their dates.
   */
  lemma VictimsInDirectoryOrder(dir: string, listing: seq<string>, dateOf: string -> int, c: int, keepCount: nat)
    requires TiedDates(dateOf, c)
    ensures var kept := Filter(listing, IsBackupName);
            Victims(Backups(dir, Some(listing), dateOf), keepCount) == if |kept| <= keepCount then [] else kept[keepCount..]
  {
    var kept := Filter(listing, IsBackupName);
    ListedInDirectoryOrder(dir, listing, dateOf, c);
    var v := Victims(Backups(dir, Some(listing), dateOf), keepCount);
    if |kept| > keepCount {
      assert |v| == |kept[keepCount..]|;
      forall i | 0 <= i < |v| ensures v[i] == kept[keepCount..][i] {
        assert v[i] == Describe(dir, kept[keepCount + i]).filename;
      }
    }
  }

  /**
   * The `for` loop of `deleteOldBackups` as a function: unlink the victims in
   * turn; the first unlink that fails (the file is gone, or removing it is
   * refused) ends the loop and is reported; the rest are left alone.
   */
  function Unlinked(files: set<string>, victims: seq<string>, denied: set<string>): (r: (set<string>, Option<string>))
    ensures r.0 <= files
    ensures r.1.Some? ==> r.1.value in victims
    decreases |victims|
  {
    if victims == [] then (files, None)
    else if victims[0] !in files || victims[0] in denied then (files, Some(victims[0]))
    else Unlinked(files - {victims[0]}, victims[1..], denied)
  }

  function Names(s: seq<string>): set<string>
  {
    set i | 0 <= i < |s| :: s[i]
  }

  predicate Removable(files: set<string>, victims: seq<string>, denied: set<string>, k: nat)
    requires k <= |victims|
  {
    forall i :: 0 <= i < k ==> victims[i] in files && victims[i] !in denied
  }

  /** After `k` successful unlinks the loop goes on with the rest, the first `k` names gone. */
  lemma {:induction false} UnlinkedPrefix(files: set<string>, victims: seq<string>, denied: set<string>, k: nat)
    requires k <= |victims| && NoDuplicates(victims)
    requires Removable(files, victims, denied, k)
    ensures Unlinked(files, victims, denied) == Unlinked(files - Names(victims[..k]), victims[k..], denied)
    decreases k
  {
    if k == 0 {
      assert Names(victims[..0]) == {};
      assert victims[0..] == victims;
      assert files - {} == files;
    } else {
      var v := victims[0];
      var rest := victims[1..];
      assert NoDuplicates(rest) by {
        forall i, j | 0 <= i < j < |rest| ensures rest[i] != rest[j] {
          assert rest[i] == victims[i + 1] && rest[j] == victims[j + 1];
        }
      }
      assert Removable(files - {v}, rest, denied, k - 1) by {
        forall i | 0 <= i < k - 1 ensures rest[i] in files - {v} && rest[i] !in denied {
          assert rest[i] == victims[i + 1];
        }
      }
      UnlinkedPrefix(files - {v}, rest, denied, k - 1);
      assert rest[k - 1..] == victims[k..];
      assert (files - {v}) - Names(rest[..k - 1]) == files - Names(victims[..k]) by {
        assert Names(victims[..k]) == {v} + Names(rest[..k - 1]) by {
          forall x | x in Names(victims[..k]) ensures x in {v} + Names(rest[..k - 1]) {
            var i :| 0 <= i < k && victims[..k][i] == x;
            if i > 0 {
              assert rest[..k - 1][i - 1] == x;
            }
          }
          forall x | x in Names(rest[..k - 1]) ensures x in Names(victims[..k]) {
            var i :| 0 <= i < k - 1 && rest[..k - 1][i] == x;
            assert victims[..k][i + 1] == x;
          }
          assert victims[..k][0] == v;
        }
      }
    }
  }

  /** When every unlink succeeds, exactly the victims are gone and no error is logged. */
  lemma UnlinkedAll(files: set<string>, victims: seq<string>, denied: set<string>)
    requires NoDuplicates(victims)
    requires Removable(files, victims, denied, |victims|)
    ensures Unlinked(files, victims, denied) == (files - Names(victims), None)
  {
    UnlinkedPrefix(files, victims, denied, |victims|);
    assert victims[..|victims|] == victims;
    assert victims[|victims|..] == [];
  }

  /**
   * The first failing unlink at position `k` stops the loop: the names before
   * it are gone, it and every later victim remain, and it is the error logged.
   */
  lemma UnlinkedStops(files: set<string>, victims: seq<string>, denied: set<string>, k: nat)
    requires k < |victims| && NoDuplicates(victims)
    requires Removable(files, victims, denied, k)
    requires victims[k] !in files || victims[k] in denied
    ensures Unlinked(files, victims, denied) == (files - Names(victims[..k]), Some(victims[k]))
  {
    UnlinkedPrefix(files, victims, denied, k);
    assert victims[k..][0] == victims[k];
  }

  /** The archives `deleteOldBackups` removes: every listed entry after the first `keepCount`. */
  function Victims(backups: seq<BackupEntry>, keepCount: nat): (r: seq<string>)
    ensures |backups| <= keepCount ==> r == []
    ensures |backups| > keepCount ==> |r| == |backups| - keepCount
    ensures forall i :: 0 <= i < |r| ==> r[i] == backups[keepCount + i].filename
  {
    if |backups| <= keepCount then [] else MapSeq(backups[keepCount..], (e: BackupEntry) => e.filename)
  }

  class BackupService {
    const backupPath: string
    var dirExists: bool
    var files: set<string>

    constructor(backupPath: string, dirExists: bool, files: set<string>)
      requires dirExists || files == {}
      ensures this.backupPath == backupPath && this.dirExists == dirExists && this.files == files
    {
      this.backupPath := backupPath;
      this.dirExists := dirExists;
      this.files := files;
    }

    predicate Valid()
      reads this
    {
      dirExists || files == {}
    }

    /**
     * `createBackup` at instant `iso`. A failing `mkdir` changes nothing; a
     * failing read of the tables comes before the archive file is opened, so
     * it adds no name. Otherwise the archive file is opened, so its name is
     * present whether or not the archiver then succeeds, and the full path is
     * returned only on success. Every failure is rethrown.
     */
    method CreateBackup(iso: string, mkdirOk: bool, readOk: bool, archiveOk: bool) returns (r: Result<string>)
      requires Valid()
      modifies this
      ensures Valid()
      ensures !mkdirOk ==> dirExists == old(dirExists) && files == old(files) && r.Failure?
      ensures mkdirOk ==> dirExists
      ensures mkdirOk && !readOk ==> files == old(files) && r.Failure?
      ensures mkdirOk && readOk ==> files == old(files) + {ArchiveName(iso)}
      ensures mkdirOk && readOk && archiveOk ==> r == Success(JoinPath(backupPath, ArchiveName(iso)))
      ensures mkdirOk && readOk && !archiveOk ==> r.Failure?
    {
      if !mkdirOk {
        return Failure("mkdir error");
      }
      dirExists := true;
      var name := ArchiveName(iso);
      if !readOk {
        return Failure("database error");
      }
      files := files + {name};
      if archiveOk {
        r := Success(JoinPath(backupPath, name));
      } else {
        r := Failure("archive error");
      }
    }

    /**
     * `listBackups`; `listing` is the order in which `readdir` enumerates the
     * directory, and reading fails when the directory does not exist.
     */
    method ListBackups(listing: seq<string>, dateOf: string -> int) returns (r: seq<BackupEntry>)
      requires Valid() && NoDuplicates(listing) && Names(listing) == files
      ensures r == Backups(backupPath, if dirExists then Some(listing) else None, dateOf)
    {
      if dirExists {
        r := Backups(backupPath, Some(listing), dateOf);
      } else {
        r := [];
      }
    }

    /**
     * `deleteOldBackups(keepCount = 10)`: list, and when more than `keepCount`
     * archives exist unlink those after the first `keepCount` one by one. An
     * unlink failure is caught and logged (returned here) and ends the loop.
     */
    method DeleteOldBackups(listing: seq<string>, dateOf: string -> int, denied: set<string>,
                            keepCount: nat := DefaultKeepCount)
      returns (failure: Option<string>)
      requires Valid() && NoDuplicates(listing) && Names(listing) == files
      modifies this
      ensures Valid() && dirExists == old(dirExists)
      ensures (files, failure) ==
        Unlinked(old(files), Victims(Backups(backupPath, if old(dirExists) then Some(listing) else None, dateOf), keepCount), denied)
    {
      var backups := ListBackups(listing, dateOf);
      failure := None;
      if |backups| <= keepCount {
        return;
      }
      var victims := Victims(backups, keepCount);
      ghost var goal := Unlinked(files, victims, denied);
      var j := 0;
      while j < |victims|
        invariant 0 <= j <= |victims|
        invariant goal == Unlinked(files, victims[j..], denied)
        invariant failure == None
        invariant files <= old(files) && dirExists == old(dirExists)
      {
        var v := victims[j];
        assert victims[j..][0] == v && victims[j..][1..] == victims[j + 1..];
        if v !in files || v in denied {
          failure := Some(v);
          break;
        }
        files := files - {v};
        j := j + 1;
      }
      if failure == None {
        assert victims[j..] == [];
      }
    }
  }

  lemma TwoPositions<T>(s: seq<T>, i: nat, j: nat)
    requires i < j < |s| && s[i] == s[j]
    ensures multiset(s)[s[i]] >= 2
  {
    assert s == s[..j] + [s[j]] + s[j + 1..];
    assert s[..j][i] == s[i];
    assert s[i] in multiset(s[..j]);
  }

  lemma {:induction false} DescribeDistinct(dir: string, kept: seq<string>, e: BackupEntry)
    requires NoDuplicates(kept)
    ensures multiset(MapSeq(kept, Describer(dir)))[e] <= 1
    decreases |kept|
  {
    if kept != [] {
      var rest := kept[1..];
      assert NoDuplicates(rest) by {
        forall i, j | 0 <= i < j < |rest| ensures rest[i] != rest[j] {
          assert rest[i] == kept[i + 1] && rest[j] == kept[j + 1];
        }
      }
      DescribeDistinct(dir, rest, e);
      var m := MapSeq(kept, Describer(dir));
      assert m == [Describe(dir, kept[0])] + MapSeq(rest, Describer(dir));
      if e == Describe(dir, kept[0]) {
        assert e !in MapSeq(rest, Describer(dir)) by {
          forall i | 0 <= i < |rest| ensures Describe(dir, rest[i]).filename != kept[0] {
            assert rest[i] == kept[i + 1];
          }
        }
      }
    }
  }

  /** Distinct entries of the listing are distinct archives: the listing never repeats a name. */
  lemma BackupsDistinct(dir: string, listing: seq<string>, dateOf: string -> int, i: nat, j: nat)
    requires NoDuplicates(listing)
    requires i < j < |Backups(dir, Some(listing), dateOf)|
    ensures Backups(dir, Some(listing), dateOf)[i].filename != Backups(dir, Some(listing), dateOf)[j].filename
  {
    var backups := Backups(dir, Some(listing), dateOf);
    if backups[i].filename == backups[j].filename {
      ListedAreBackups(dir, listing, backups, i);
      ListedAreBackups(dir, listing, backups, j);
      assert backups[i] == backups[j];
      TwoPositions(backups, i, j);
      FilterNoDuplicates(listing, IsBackupName);
      DescribeDistinct(dir, Filter(listing, IsBackupName), backups[i]);
    }
  }

  lemma VictimsDistinct(dir: string, listing: seq<string>, dateOf: string -> int, keepCount: nat)
    requires NoDuplicates(listing)
    ensures NoDuplicates(Victims(Backups(dir, Some(listing), dateOf), keepCount))
  {
    var backups := Backups(dir, Some(listing), dateOf);
    forall i: nat, j: nat | i < j < |backups| ensures backups[i].filename != backups[j].filename {
      BackupsDistinct(dir, listing, dateOf, i, j);
    }
    VictimsOfDistinct(backups, keepCount);
  }

  lemma VictimsOfDistinct(backups: seq<BackupEntry>, keepCount: nat)
    requires forall i, j :: 0 <= i < j < |backups| ==> backups[i].filename != backups[j].filename
    ensures NoDuplicates(Victims(backups, keepCount))
  {
    var v := Victims(backups, keepCount);
    forall i, j | 0 <= i < j < |v| ensures v[i] != v[j] {
      assert v[i] == backups[keepCount + i].filename && v[j] == backups[keepCount + j].filename;
    }
  }

  /**
   * With at most `keepCount` archives nothing is unlinked; otherwise, when no
   * unlink fails, exactly the archives after the first `keepCount` are gone
   * and the first `keepCount` remain.
   */
  lemma RetentionOutcome(dir: string, files: set<string>, listing: seq<string>, dateOf: string -> int,
                         keepCount: nat, denied: set<string>)
    requires NoDuplicates(listing)
    ensures var victims := Victims(Backups(dir, Some(listing), dateOf), keepCount);
            var out := Unlinked(files, victims, denied);
            (|Backups(dir, Some(listing), dateOf)| <= keepCount ==> out == (files, None)) &&
            (out.1 == None ==> out.0 == files - Names(victims))
  {
    var victims := Victims(Backups(dir, Some(listing), dateOf), keepCount);
    VictimsDistinct(dir, listing, dateOf, keepCount);
    UnlinkedFacts(files, victims, denied);
    if Unlinked(files, victims, denied).1 == None {
      UnlinkedAll(files, victims, denied);
    }
  }

  /**
   * Whatever happens to the unlinks, the first `keepCount` listed archives are
   * never removed. Which archives those are depends on the date key; with the
   * program's tied dates they are the first in directory order
   * (`RetentionKeepsFirstInDirectory`), not necessarily the newest.
   */
  lemma RetentionKeepsFirstListed(dir: string, files: set<string>, listing: seq<string>, dateOf: string -> int,
                             keepCount: nat, denied: set<string>, i: nat)
    requires NoDuplicates(listing)
    requires i < keepCount && i < |Backups(dir, Some(listing), dateOf)|
    requires Backups(dir, Some(listing), dateOf)[i].filename in files
    ensures Backups(dir, Some(listing), dateOf)[i].filename in
              Unlinked(files, Victims(Backups(dir, Some(listing), dateOf), keepCount), denied).0
  {
    var backups := Backups(dir, Some(listing), dateOf);
    var victims := Victims(backups, keepCount);
    var x := backups[i].filename;
    assert x !in Names(victims) by {
      forall k | 0 <= k < |victims| ensures victims[k] != x {
        BackupsDistinct(dir, listing, dateOf, i, keepCount + k);
      }
    }
    UnlinkedKeeps(files, victims, denied, x);
  }

  /** With tied dates, the first `keepCount` archives in directory order survive every run. */
  lemma RetentionKeepsFirstInDirectory(dir: string, files: set<string>, listing: seq<string>, dateOf: string -> int,
                                       c: int, keepCount: nat, denied: set<string>, i: nat)
    requires NoDuplicates(listing) && TiedDates(dateOf, c)
    requires i < keepCount && i < |Filter(listing, IsBackupName)|
    requires Filter(listing, IsBackupName)[i] in files
    ensures Filter(listing, IsBackupName)[i] in
              Unlinked(files, Victims(Backups(dir, Some(listing), dateOf), keepCount), denied).0
  {
    ListedInDirectoryOrder(dir, listing, dateOf, c);
    assert Backups(dir, Some(listing), dateOf)[i].filename == Filter(listing, IsBackupName)[i];
    RetentionKeepsFirstListed(dir, files, listing, dateOf, keepCount, denied, i);
  }

  /** The loop's outcome is clean exactly when every victim could be unlinked. */
  lemma {:induction false} UnlinkedFacts(files: set<string>, victims: seq<string>, denied: set<string>)
    ensures Unlinked(files, victims, denied).1 == None ==> Removable(files, victims, denied, |victims|)
    decreases |victims|
  {
    if victims != [] && victims[0] in files && victims[0] !in denied {
      UnlinkedFacts(files - {victims[0]}, victims[1..], denied);
      var rest := victims[1..];
      if Unlinked(files, victims, denied).1 == None {
        forall i | 0 <= i < |victims| ensures victims[i] in files && victims[i] !in denied {
          if i > 0 {
            assert victims[i] == rest[i - 1];
          }
        }
      }
    }
  }

  /** A name that is not a victim survives the loop. */
  lemma {:induction false} UnlinkedKeeps(files: set<string>, victims: seq<string>, denied: set<string>, x: string)
    requires x in files && x !in Names(victims)
    ensures x in Unlinked(files, victims, denied).0
    decreases |victims|
  {
    if victims != [] && victims[0] in files && victims[0] !in denied {
      assert victims[0] in Names(victims);
      assert x !in Names(victims[1..]);
      UnlinkedKeeps(files - {victims[0]}, victims[1..], denied, x);
    }
  }
}
