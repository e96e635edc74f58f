/** The rolling file appender: backups are numbered files, 0 being the file in use. */
module RollingFile {
  import opened Wrappers
  import opened Sequences

  /** The log files that exist, by backup index. */
  type Files = map<nat, string>

  function At(fs: Files, k: nat): Option<string> {
    if k in fs then Some(fs[k]) else None
  }

  function Text(fs: Files, k: nat): string {
    if k in fs then fs[k] else ""
  }

  /** `rename`, which fails without effect when there is nothing to rename. */
  function Renamed(fs: Files, a: nat, b: nat): Files
    requires a != b
  {
    if a in fs then (fs - {a})[b := fs[a]] else fs
  }

  /** What the files up to index `n` hold, oldest first. */
  function Retained(fs: Files, n: nat): string {
    if n == 0 then Text(fs, 0) else Text(fs, n) + Retained(fs, n - 1)
  }

  /** Every file has moved up one place: the last one is gone and the first is new. */
  ghost predicate Shifted(fs: Files, fs': Files, n: nat) {
    && At(fs', 0) == Some("")
    && (forall k: nat :: 0 < k <= n ==> At(fs', k) == At(fs, k - 1))
    && forall k: nat :: k > n ==> At(fs', k) == At(fs, k)
  }

  /** The shift is done down to index `i`, which is free. */
  ghost predicate ShiftedTo(fs: Files, fs': Files, n: nat, i: nat) {
    && At(fs', i) == None
    && (forall k: nat :: k < i || k > n ==> At(fs', k) == At(fs, k))
    && forall k: nat :: i < k <= n ==> At(fs', k) == At(fs, k - 1)
  }

  function Flatten(parts: seq<string>): string {
    if parts == [] then "" else Flatten(parts[..|parts| - 1]) + parts[|parts| - 1]
  }

  lemma ShiftStep(fs: Files, fs': Files, n: nat, i: nat)
    requires ShiftedTo(fs, fs', n, i) && 0 < i <= n
    ensures ShiftedTo(fs, Renamed(fs', i - 1, i), n, i - 1)
  {
    var r := Renamed(fs', i - 1, i);
    assert At(r, i - 1) == None && At(r, i) == At(fs', i - 1) == At(fs, i - 1);
    assert forall k: nat :: k != i && k != i - 1 ==> At(r, k) == At(fs', k);
  }

  lemma ShiftEnd(fs: Files, fs': Files, n: nat)
    requires ShiftedTo(fs, fs', n, 0)
    ensures Shifted(fs, fs'[0 := ""], n)
  {
    var r := fs'[0 := ""];
    forall k: nat | k > 0
      ensures At(r, k) == if k <= n then At(fs, k - 1) else At(fs, k)
    {
      assert At(r, k) == At(fs', k);
    }
  }

  class RollingFileAppender {
    const truncates: bool  // opened without the append flag
    var files: Files
    var maxBackupIndex: nat
    var maxFileSize: nat
    ghost var logged: string     // all that was there at first, and all that has been logged since
    ghost var lost: seq<string>  // the files that have been removed, oldest first

    /** Nothing is lost but whole files, the oldest first; what remains is in order. */
    ghost predicate Valid()
      reads this
    {
      0 in files && logged == Flatten(lost) + Retained(files, maxBackupIndex)
    }

    constructor (files: Files, maxFileSize: nat, maxBackupIndex: nat, append: bool)
      ensures Valid() && lost == [] && truncates == !append && this.maxFileSize == maxFileSize
      ensures this.maxBackupIndex == if maxBackupIndex > 0 then maxBackupIndex else 1
      ensures forall k: nat :: At(this.files, k) == if k == 0 then Some(if append then Text(files, 0) else "") else At(files, k)
    {
      this.files := files[0 := if append then Text(files, 0) else ""];
      this.maxBackupIndex := if maxBackupIndex > 0 then maxBackupIndex else 1;
      this.maxFileSize, truncates, lost := maxFileSize, !append, [];
      new;
      logged := Retained(this.files, this.maxBackupIndex);
      assert Flatten([]) + logged == logged;
    }

    /** Changing the number of backups changes which files count; the history starts again from them. */
    method SetMaxBackupIndex(maxBackups: nat)
      requires Valid()
      modifies this`maxBackupIndex, this`logged, this`lost
      ensures Valid() && maxBackupIndex == maxBackups && lost == []
    {
      maxBackupIndex := maxBackups;
      lost, logged := [], Retained(files, maxBackups);
      assert Flatten([]) + logged == logged;
    }

    /** Every file moves up one place, the one in last place goes, and the file in use is a new one. */
    method RollOver()
      requires 0 in files
      modifies this`files
      ensures 0 in files && (maxBackupIndex > 0 ==> Shifted(old(files), files, maxBackupIndex))
      ensures maxBackupIndex == 0 ==> files == if truncates then old(files)[0 := ""] else old(files)
    {
      if maxBackupIndex > 0 {
        var last := maxBackupIndex;
        files := files - {last};
        var i := maxBackupIndex;
        while i > 1
          invariant 1 <= i == last <= maxBackupIndex
          invariant ShiftedTo(old(files), files, maxBackupIndex, i)
        {
          ShiftStep(old(files), files, maxBackupIndex, i);
          files := Renamed(files, i - 1, last);
          last := i - 1;
          i := i - 1;
        }
        ShiftStep(old(files), files, maxBackupIndex, 1);
        files := Renamed(files, 0, last);
        assert At(files, 0) == None;
        ShiftEnd(old(files), files, maxBackupIndex);
      }
      if 0 !in files || truncates {
        files := files[0 := ""];
      }
    }

    /** Appends to the file in use, and rolls over once that has reached the maximum size. */
    method Append(message: string)
      requires Valid()
      modifies this`files, this`logged, this`lost
      ensures Valid() && logged == old(logged) + message
      ensures lost == old(lost)
        || (lost == old(lost) + [Text(old(files), maxBackupIndex)] && maxBackupIndex > 0)
        || (lost == old(lost) + [Text(old(files), 0) + message] && maxBackupIndex == 0 && truncates)
      ensures |files[0]| < maxFileSize
        <==> |old(files)[0]| + |message| < maxFileSize || (maxFileSize > 0 && (maxBackupIndex > 0 || truncates))
      ensures forall k: nat :: k > maxBackupIndex ==> At(files, k) == At(old(files), k)
      ensures maxBackupIndex > 0 && |old(files)[0]| + |message| >= maxFileSize ==>
        1 in files && files[1] == old(files)[0] + message && |files[1]| >= maxFileSize
    {
      hide Retained;
      hide Flatten;
      files := files[0 := files[0] + message];
      RetainedAppend(old(files), files, maxBackupIndex, message);
      Associates(Flatten(lost), Retained(old(files), maxBackupIndex), message);
      logged := logged + message;
      ghost var before := files;
      if |files[0]| >= maxFileSize {
        RollOver();
        if maxBackupIndex > 0 {
          RetainedShift(before, files, maxBackupIndex);
          lost := lost + [Text(before, maxBackupIndex)];
          FlattenSnoc(old(lost), Text(before, maxBackupIndex));
          Associates(Flatten(old(lost)), Text(before, maxBackupIndex), Retained(files, maxBackupIndex));
          assert At(files, 0) == Some("") && At(files, 1) == At(before, 0);
        } else if truncates {
          lost := lost + [before[0]];
          FlattenSnoc(old(lost), before[0]);
          RetainedAlone(before);
          RetainedAlone(files);
          assert Flatten(lost) + "" == Flatten(lost);
        }
      }
    }
  }

  lemma RetainedAlone(fs: Files)
    ensures Retained(fs, 0) == Text(fs, 0)
  {
  }

  lemma FlattenSnoc(parts: seq<string>, p: string)
    ensures Flatten(parts + [p]) == Flatten(parts) + p
  {
    assert (parts + [p])[..|parts|] == parts;
  }

  lemma {:induction false} RetainedAppend(fs: Files, fs': Files, n: nat, message: string)
    requires 0 in fs && fs' == fs[0 := fs[0] + message]
    ensures Retained(fs', n) == Retained(fs, n) + message
  {
    if n > 0 {
      RetainedAppend(fs, fs', n - 1, message);
      assert Text(fs', n) == Text(fs, n);
    }
  }

  /** After a shift the first `k` backups and the new file hold what the first `k` files held. */
  lemma {:induction false} RetainedShifts(fs: Files, fs': Files, n: nat, k: nat)
    requires 1 <= k <= n && Shifted(fs, fs', n)
    ensures Retained(fs', k) == Retained(fs, k - 1)
  {
    assert At(fs', k) == At(fs, k - 1);
    if k > 1 {
      RetainedShifts(fs, fs', n, k - 1);
    } else {
      assert At(fs', 0) == Some("");
      assert Retained(fs', 0) == "";
    }
  }

  /** Rolling over loses the file in last place and nothing else. */
  lemma RetainedShift(fs: Files, fs': Files, n: nat)
    requires n > 0 && Shifted(fs, fs', n)
    ensures Retained(fs, n) == Text(fs, n) + Retained(fs', n)
  {
    RetainedShifts(fs, fs', n, n);
  }
}
